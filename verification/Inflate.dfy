/** libgzip/inflate.c, raw mode: the resumable decoder on its byte buffers, bit
    accumulator, tables and window. Every case of the switch is one method; the
    machine of module Machine says what it does. */
module Inflate {
  import opened Bits
  import opened Canonical
  import opened Tables
  import opened Streams
  import opened Machine
  import M = Machine
  import opened Runs
  import opened Window
  import BB = BitBuffer
  import R = Rfc1951
  import InfTrees
  import T = InflateTable
  import TS = TableSteps

  datatype Mode =
    HEAD | TYPE | STORED | COPY | TABLE | LENLENS | CODELENS
    | LEN | LENEXT | DIST | DISTEXT | MATCH | LIT | CHECK | DONE | BAD

  /** What inflate() returns. */
  datatype Ret = Z_OK | Z_STREAM_END | Z_DATA_ERROR | Z_BUF_ERROR

  class InflateState {
    // The stream: input and output of the current call.
    var input: seq<byte>
    var nextIn: nat
    var output: array<byte>
    var nextOut: nat

    var mode: Mode
    var last: bool
    // sliding window
    var wsize: nat
    var whave: nat
    var write: nat
    const window: array<byte>
    // bit accumulator
    var hold: nat
    var bits: nat
    // for string and stored block copying
    var length: nat
    var offset: nat
    // extra bits needed
    var extra: nat
    // code tables in use: where they start and how many root bits they have
    var lencode: array<Code>
    var lenStart: nat
    var lenEnd: nat
    var lenbits: nat
    var distcode: array<Code>
    var distStart: nat
    var distEnd: nat
    var distbits: nat
    // dynamic table building
    var ncode: nat
    var nlen: nat
    var ndist: nat
    var have: nat
    const lens: array<nat>
    const work: array<nat>
    const codes: array<Code>
    // fixed tables, built once
    const fixedTab: array<Code>
    var virgin: bool

    /** Bytes taken, and bytes written, by earlier calls. */
    ghost var past: seq<byte>
    ghost var hist: seq<byte>
    /** The codes that the tables in use decode, and the code lengths read so far. */
    ghost var c: Codes
    ghost var cl: Lens
    ghost var got: Lens
    /** In mode BAD, how far the bits that were looked at reach beyond the position. */
    ghost var ahead: nat

    // ---- The abstraction ---------------------------------------------------------

    ghost function Src(): seq<byte> reads `past, `input { past + input }
    ghost function S(): Stream reads `past, `input { ByteBits(Src()) }
    ghost function Taken(): nat reads `past, `nextIn { |past| + nextIn }
    ghost function Lim(): nat reads `hist, `output { |hist| + output.Length }

    ghost predicate Shape()
      reads `input, `nextIn, `output, `nextOut
    {
      && window.Length == WSIZE && lens.Length == 320 && work.Length == 288
      && codes.Length == InfTrees.ENOUGH && fixedTab.Length == 544
      && lens != work && codes != fixedTab && output != window
      && nextIn <= |input| && nextOut <= output.Length
    }

    ghost predicate Buffer()
      reads `past, `input, `nextIn, `hold, `bits
    {
      BB.Holds(Src(), Taken(), hold, bits) && bits <= 32
    }

    ghost function Pos(): nat
      reads `past, `input, `nextIn, `hold, `bits
      requires Buffer()
    {
      8 * Taken() - bits
    }

    /** Everything written so far. */
    ghost function Out(): seq<byte>
      reads `hist, `output, `nextOut, output
      requires nextOut <= output.Length
    {
      hist + output[..nextOut]
    }

    ghost function Ph(): Phase
      reads `mode, `length, `nlen, `ndist, `ncode, `got, `cl, `c, `extra, `offset, `ahead
    {
      match mode
      case HEAD => Type
      case TYPE => Type
      case STORED => Stored
      case COPY => Copy(length)
      case TABLE => Table
      case LENLENS => LenLens(nlen, ndist, ncode, got)
      case CODELENS => CodeLens(nlen, ndist, cl, got)
      case LEN => Len(c)
      case LENEXT => LenExt(c, length, extra)
      case DIST => Dist(c, length)
      case DISTEXT => DistExt(c, length, offset, extra)
      case MATCH => Match(c, length, offset)
      case LIT => if length < 256 then Lit(c, length) else Bad(0)
      case CHECK => Done
      case DONE => Done
      case BAD => Bad(ahead)
    }

    ghost function Abs(): Cfg
      reads `mode, `length, `nlen, `ndist, `ncode, `got, `cl, `c, `extra, `offset, `ahead, `last,
            `past, `input, `nextIn, `hold, `bits, `hist, `output, `nextOut, output
      requires Shape() && Buffer()
    {
      Cfg(Ph(), last, Pos(), Out())
    }

    // ---- The invariant -------------------------------------------------------------

    /** What each mode expects of the numbers it works on. */
    ghost predicate Fields()
      reads `mode, `bits, `got, `have, `extra, `length, `offset, `ahead
    {
      ModeFields() && BitFields()
    }

    ghost predicate ModeFields()
      reads `mode, `got, `have, `extra, `length, `offset, `ahead
    {
      (mode != BAD ==> ahead == 0) &&
      match mode
      case LENLENS => |got| == have && forall i :: 0 <= i < |got| ==> got[i] <= 7
      case CODELENS => |got| == have
      case LENEXT => extra <= 5 && length + Pow2(extra) <= 259
      case DIST => length <= 258
      case DISTEXT => length <= 258 && extra <= 13 && offset + Pow2(extra) <= 32769
      case MATCH => length <= 258 && offset <= WSIZE
      case LIT => length < 256
      case _ => true
    }

    ghost predicate BitFields()
      reads `mode, `bits, `ahead
    {
      && (mode == COPY || mode == CHECK || mode == DONE ==> bits == 0)
      && (mode == BAD ==> ahead <= bits < ahead + 8)
    }

    /** The code lengths read so far are in lens[]. */
    ghost predicate LensOK()
      reads `mode, `got, lens
      requires lens.Length == 320
    {
      && (mode == LENLENS ==> |got| <= 19 && forall i :: 0 <= i < |got| ==> lens[OrderAt(i)] == got[i])
      && (mode == CODELENS ==> |got| <= 316 && lens[..|got|] == got)
    }

    ghost predicate FixedOK()
      reads `virgin, fixedTab
    {
      !virgin ==>
        && fixedTab.Length == 544
        && TableOK(LENS, FixedLengths(), fixedTab[..512], 9)
        && TableOK(DISTS, FixedDistances(), fixedTab[512..544], 5)
    }

    /** What holds between blocks and within: the fixed tables and the window. */
    ghost predicate Kept()
      reads `virgin, fixedTab, `wsize, `whave, `write, `hist, window
    {
      FixedOK() && WindowOK(window[..], wsize, whave, write, hist)
    }

    ghost predicate LenTable(kind: Kind, l: Lens)
      reads `lencode, `lenStart, `lenEnd, `lenbits, lencode
    {
      && (lencode == codes || lencode == fixedTab)
      && lenStart <= lenEnd <= lencode.Length && TableOK(kind, l, lencode[lenStart..lenEnd], lenbits)
    }

    ghost predicate DistTable(l: Lens)
      reads `distcode, `distStart, `distEnd, `distbits, distcode
    {
      && (distcode == codes || distcode == fixedTab)
      && distStart <= distEnd <= distcode.Length && TableOK(DISTS, l, distcode[distStart..distEnd], distbits)
    }

    /** The tables in use decode the literal/length and distance codes in use. */
    ghost predicate CodeTables()
      reads `lencode, `lenStart, `lenEnd, `lenbits, lencode, `distcode, `distStart, `distEnd, `distbits, distcode, `c
    {
      LenTable(LENS, c.ll) && DistTable(c.dl)
    }

    /** The table in use decodes the code length code, without links. */
    ghost predicate ClTable()
      reads `lencode, `lenStart, `lenEnd, `lenbits, lencode, `cl
    {
      LenTable(CODES, cl) && AtMost(cl, lenbits)
    }

    predicate InCodes()
      reads `mode
    {
      mode == LEN || mode == LENEXT || mode == DIST || mode == DISTEXT || mode == MATCH || mode == LIT
    }

    predicate Finished()
      reads `mode
    {
      mode == CHECK || mode == DONE || mode == BAD
    }

    /** No byte is taken before it is needed: with eight bits or more at hand, the
        next step is still waiting for the byte to come. */
    ghost predicate Lean()
      reads `mode, `length, `nlen, `ndist, `ncode, `got, `cl, `c, `extra, `offset, `ahead, `last,
            `past, `input, `nextIn, `hold, `bits, `hist, `output, `nextOut, output
      requires Shape() && Buffer()
    {
      LeanAt(Abs(), Src()[..Taken()])
    }

    ghost predicate LeanAt(d: Cfg, src: seq<byte>)
      reads `mode, `bits
    {
      bits < 8 || mode == BAD || mode == STORED ||
      (WF(d, ByteBits(src)) && Step(d, ByteBits(src), |d.out| + 1).None?)
    }

    /** The part of the invariant about where the decoder is in its input and output. */
    ghost predicate Core()
      reads `mode, `length, `nlen, `ndist, `ncode, `got, `cl, `c, `extra, `offset, `ahead, `last,
            `past, `input, `nextIn, `hold, `bits, `hist, `output, `nextOut, output, `have
    {
      Shape() && Buffer() && ModeFields() && BitFields() && Lean() && WF(Abs(), S())
    }

    ghost predicate Valid()
      reads this, output, lens, fixedTab, lencode, distcode, window
    {
      && Core() && LensOK()
      && FixedOK() && ((Finished() && wsize == 0) || WindowOK(window[..], wsize, whave, write, hist))
      && (InCodes() ==> CodeTables())
      && (mode == CODELENS ==> ClTable())
    }

    // ---- What a case of the switch does ---------------------------------------------

    /** From c0 the machine gets to the present state; it makes progress, or it stops
        because the machine does. */
    ghost predicate Moved(c0: Cfg, stop: bool)
      reads `mode, `length, `nlen, `ndist, `ncode, `got, `cl, `c, `extra, `offset, `ahead, `last,
            `past, `input, `nextIn, `hold, `bits, `hist, `output, `nextOut, output
      requires Shape() && Buffer()
    {
      && WF(Abs(), S())
      && (Leads(c0, S(), Lim(), Abs()) || (stop && c0 == Abs()))
      && (stop || bits < 8 || mode == BAD || mode == STORED)
      && (stop ==>
          && Step(Abs(), S(), Lim()).None? && !Finished() && mode != HEAD
          && (nextIn == |input| || (bits < 8 && Step(Abs(), S(), |Out()| + 1).Some?)))
    }

    constructor ()
      ensures Valid() && fresh(window) && fresh(lens) && fresh(work) && fresh(codes) && fresh(fixedTab)
      ensures past == [] && hist == [] && Idle()
      ensures Abs() == Cfg(Type, false, 0, [])
    {
      hide Valid, Abs, Shape, Idle, Buffer, Core;
      window := new byte[WSIZE];
      lens := new nat[320];
      work := new nat[288];
      codes := new Code[InfTrees.ENOUGH];
      fixedTab := new Code[544];
      input, nextIn, nextOut := [], 0, 0;
      output := new byte[0];
      mode, last := HEAD, false;
      wsize, whave, write := 0, 0, 0;
      hold, bits := 0, 0;
      length, offset, extra := 0, 0, 0;
      lencode, lenStart, lenEnd, lenbits := codes, 0, 0, 0;
      distcode, distStart, distEnd, distbits := codes, 0, 0, 0;
      ncode, nlen, ndist, have, virgin := 0, 0, 0, 0, true;
      past, hist := [], [];
      new;
      c, cl, got, ahead := Codes([], []), [], [], 0;
      FreshIsValid();
    }

    lemma {:induction false} FreshIsValid()
      requires window.Length == WSIZE && lens.Length == 320 && work.Length == 288
      requires codes.Length == InfTrees.ENOUGH && fixedTab.Length == 544
      requires lens != work && codes != fixedTab && output != window
      requires mode == HEAD && !last && bits == 0 && hold == 0 && virgin
      requires past == [] && hist == [] && input == [] && nextIn == 0 && nextOut == 0
      requires wsize == 0 && whave == 0 && write == 0 && ahead == 0
      ensures Valid() && Abs() == Cfg(Type, false, 0, []) && Idle()
    {
      hide Step, TableOK, CodeTables, ClTable;
      assert S() == [];
      assert Buffer();
      assert Out() == [];
    }

    // ---- The bit accumulator ---------------------------------------------------------

    lemma {:induction false} AllTaken()
      requires Buffer() && nextIn == |input|
      ensures Pos() + bits == |S()|
    {}

    /** NEEDBITS(n): at least n bits at hand, or no more input. */
    method NeedBits(n: nat) returns (ok: bool)
      requires Shape() && Buffer() && (n <= 25 || (n == 32 && bits % 8 == 0))
      modifies `nextIn, `hold, `bits
      ensures Shape() && Buffer() && Pos() == old(Pos())
      ensures ok ==> n <= bits && (bits == old(bits) || bits < n + 8) && (n == 32 ==> bits == 32)
      ensures old(bits) >= n ==> ok && bits == old(bits)
      ensures !ok ==> bits < n && nextIn == |input| && Pos() + n > |S()|
    {
      hide BB.Holds, Shl, ByteBits;
      while bits < n
        invariant Shape() && Buffer() && Pos() == old(Pos())
        invariant bits == old(bits) || (old(bits) < n && bits < n + 8)
        invariant n == 32 ==> bits % 8 == 0
      {
        if nextIn == |input| {
          AllTaken();
          return false;
        }
        BB.Pulled(Src(), Taken(), hold, bits);
        assert Src()[Taken()] == input[nextIn];
        hold := hold + Shl(input[nextIn], bits);
        nextIn := nextIn + 1;
        bits := bits + 8;
      }
      return true;
    }

    /** DROPBITS(n) */
    method DropBits(n: nat)
      requires Shape() && Buffer() && n <= bits
      modifies `hold, `bits
      ensures Buffer() && bits == old(bits) - n && Pos() == old(Pos()) + n <= |S()|
    {
      BB.Dropped(Src(), Taken(), hold, bits, n);
      hold := Shr(hold, n);
      bits := bits - n;
    }

    /** NEEDBITS, BITS and DROPBITS of n bits. */
    method TakeBits(n: nat) returns (ok: bool, v: nat)
      requires Shape() && Buffer() && n <= 25
      modifies `nextIn, `hold, `bits
      ensures Shape() && Buffer()
      ensures ok ==> old(Pos()) + n == Pos() <= |S()| && v == Num(S(), old(Pos()), n) < Pow2(n)
      ensures ok && (old(bits) < 8 || old(bits) < n) ==> bits < 8
      ensures old(bits) >= n ==> ok && bits == old(bits) - n
      ensures !ok ==> Pos() == old(Pos()) && bits < n && nextIn == |input| && Pos() + n > |S()|
    {
      hide Buffer, Shape, Pos, S, Src, Taken, Num;
      ok := NeedBits(n);
      v := 0;
      if ok {
        BitsAre(n);
        v := Low(hold, n);
        DropBits(n);
      }
    }

    /** BITS(n) */
    lemma {:induction false} BitsAre(n: nat)
      requires Buffer() && n <= bits
      ensures Pos() + n <= |S()| && Low(hold, n) == Num(S(), Pos(), n) < Pow2(n)
    {
      BB.LowBits(Src(), Taken(), hold, bits, n);
      Split(hold, n);
    }

    // ---- Decoding one symbol ---------------------------------------------------------------

    /** The bits at hand, and those from here on. */
    ghost function AtHand(): seq<bool>
      reads `past, `input, `nextIn, `hold, `bits
      requires Buffer()
    {
      S()[Pos()..Pos() + bits]
    }

    ghost function Ahead(): seq<bool>
      reads `past, `input, `nextIn, `hold, `bits
      requires Buffer()
    {
      S()[Pos()..]
    }

    /** PULLBYTE while a symbol is incomplete. */
    method PullByte() returns (ok: bool)
      requires Shape() && Buffer() && bits <= 24
      modifies `nextIn, `hold, `bits
      ensures Shape() && Buffer() && Pos() == old(Pos()) && Ahead() == old(Ahead())
      ensures ok ==> bits == old(bits) + 8 && nextIn == old(nextIn) + 1 && AtHand()[..old(bits)] == old(AtHand())
      ensures !ok ==> unchanged(this) && nextIn == |input|
    {
      hide BB.Holds, Shl, ByteBits;
      if nextIn == |input| { return false; }
      BB.Pulled(Src(), Taken(), hold, bits);
      assert Src()[Taken()] == input[nextIn];
      hold := hold + Shl(input[nextIn], bits);
      nextIn := nextIn + 1;
      bits := bits + 8;
      return true;
    }

    lemma {:induction false} HoldIsAtHand()
      requires Buffer()
      ensures |AtHand()| == bits && hold == LE(AtHand()) && AtHand() <= Ahead()
      ensures nextIn == |input| ==> AtHand() == Ahead()
    {}

    /** No byte at hand was pulled before the symbol needed it. */
    ghost predicate Thrifty(l: Lens)
      reads `past, `input, `nextIn, `hold, `bits
      requires Buffer()
    {
      bits < 8 || Decode(l, AtHand()).More? || Decode(l, AtHand()[..bits - 8]).More?
    }

    /** Pull bytes until the entry of the root table is decided. */
    method RootEntry(ghost kind: Kind, ghost l: Lens, tab: array<Code>, start: nat, end: nat, root: nat)
      returns (ok: bool, e: Code)
      requires Shape() && Buffer() && bits < 23 && Thrifty(l)
      requires start <= end <= tab.Length && TableOK(kind, l, tab[start..end], root)
      modifies `nextIn, `hold, `bits
      ensures Shape() && Buffer() && Pos() == old(Pos()) && Ahead() == old(Ahead())
      ensures !ok ==> Decode(l, Ahead()).More? && nextIn == |input| && bits < 15
      ensures ok ==> Thrifty(l) && bits < 23 && Low(hold, root) < end - start
      ensures ok ==> e == tab[start + Low(hold, root)] && e.bits <= bits
    {
      hide Decode, TableOK, ByteBits, Low, Shr, LE, BB.Holds, Tells, Drops, Acceptable;
      ghost var t, v := tab[start..end], Ahead();
      TableFacts(kind, l, t, root);
      while true
        invariant Shape() && Buffer() && Pos() == old(Pos()) && bits < 23
        invariant Ahead() == v && Thrifty(l)
        decreases |input| - nextIn
      {
        HoldIsAtHand();
        RootTells(kind, l, t, root, AtHand(), v);
        e := tab[start + Low(hold, root)];
        if e.bits <= bits { return true, e; }
        ok := PullByte();
        if !ok {
          HoldIsAtHand();
          return;
        }
      }
    }

    /** Pull bytes until the entry of the sub-table behind link is decided. */
    method SubEntry(ghost kind: Kind, ghost l: Lens, tab: array<Code>, start: nat, end: nat, root: nat, link: Code)
      returns (ok: bool, e: Code)
      requires Shape() && Buffer() && bits < 23 && Thrifty(l)
      requires start <= end <= tab.Length && TableOK(kind, l, tab[start..end], root)
      requires Low(hold, root) < end - start && link == tab[start + Low(hold, root)] && IsLink(link) &&
               link.bits <= bits
      modifies `nextIn, `hold, `bits
      ensures Shape() && Buffer() && Pos() == old(Pos()) && Ahead() == old(Ahead()) && link.bits == root
      ensures !ok ==> Decode(l, Ahead()).More? && nextIn == |input| && bits < 15
      ensures ok ==> Thrifty(l) && root + e.bits <= bits < 23 && root + e.bits <= MAXBITS
                     && Tells(kind, l, Code(e.op, root + e.bits, e.val), AtHand(), Ahead())
    {
      hide Decode, TableOK, ByteBits, Low, Shr, LE, BB.Holds, Tells, Drops, Acceptable, Src, S, Taken, Pos,
           Ahead, AtHand, Buffer;
      ghost var t, v := tab[start..end], Ahead();
      TableFacts(kind, l, t, root);
      HoldIsAtHand();
      RootTells(kind, l, t, root, AtHand(), v);
      while true
        invariant Shape() && Buffer() && Pos() == old(Pos()) && root <= bits < 23
        invariant Ahead() == v && Thrifty(l) && Low(hold, root) < |t| && t[Low(hold, root)] == link
        decreases |input| - nextIn
      {
        HoldIsAtHand();
        ghost var w := AtHand();
        RootTells(kind, l, t, root, w, v);
        LowLow(hold, root, root + link.op);
        e := tab[start + link.val + Shr(Low(hold, link.bits + link.op), link.bits)];
        if link.bits + e.bits <= bits { return true, e; }
        TellsMore(kind, l, Code(e.op, root + e.bits, e.val), w, v);
        ok := PullByte();
        HoldIsAtHand();
        if !ok { return; }
        LowStable(w, AtHand(), root);
      }
    }

    /** Pull just enough bytes to decode the next code, and drop the code. The source
        has this loop, once for the root table and once for the sub-table, in each of
        the cases CODELENS, LEN and DIST. */
    method NextSymbol(ghost kind: Kind, ghost l: Lens, tab: array<Code>, start: nat, end: nat, root: nat)
      returns (ok: bool, e: Code)
      requires Shape() && Buffer() && bits < 23 && Thrifty(l)
      requires start <= end <= tab.Length && TableOK(kind, l, tab[start..end], root)
      modifies `nextIn, `hold, `bits
      ensures Shape() && Buffer()
      ensures !ok ==> Decode(l, Ahead()).More? && Pos() == old(Pos()) && nextIn == |input| && bits < 15
      ensures ok ==> bits < 8 && Pos() <= |S()| && Drops(kind, l, Decode(l, old(Ahead())), e, Pos() - old(Pos()))
    {
      hide Decode, TableOK, ByteBits, Low, Shr, LE, BB.Holds, Tells, Drops, Acceptable,
           Src, S, Taken, Pos, AtHand, Ahead, Buffer, Shape;
      TableFacts(kind, l, tab[start..end], root);
      ok, e := RootEntry(kind, l, tab, start, end, root);
      if !ok { return; }
      if IsLink(e) {
        var link := e;
        ok, e := SubEntry(kind, l, tab, start, end, root, link);
        if !ok { return; }
        HoldIsAtHand();
        ToldAll(kind, l, Code(e.op, root + e.bits, e.val), AtHand(), Ahead());
        DropBits(link.bits);
      } else {
        HoldIsAtHand();
        RootTells(kind, l, tab[start..end], root, AtHand(), Ahead());
        ToldAll(kind, l, e, AtHand(), Ahead());
      }
      DropBits(e.bits);
    }

    // ---- Waiting and going on -------------------------------------------------------------

    /** The stream as far as it has been taken. */
    ghost function Seen(): Stream
      reads `past, `input, `nextIn
      requires nextIn <= |input|
    {
      ByteBits(Src()[..Taken()])
    }

    lemma {:induction false} InRange()
      requires Shape()
      ensures nextIn <= |input| && nextOut <= output.Length && output != window
    {}

    lemma {:induction false} AbsIs()
      requires Shape() && Buffer()
      ensures Abs() == Cfg(Ph(), last, Pos(), Out())
    {}

    lemma {:induction false} AnyBits()
      requires mode != COPY && !Finished()
      ensures BitFields()
    {}

    /** A case that waits for input stops as the machine does. */
    lemma {:induction false} Waiting(c0: Cfg)
      requires Shape() && Buffer() && nextIn == |input| && c0 == Abs() && WF(c0, S())
      requires Step(c0, S(), |Out()| + 1).None? && Step(c0, S(), Lim()).None? && !Finished() && mode != HEAD && Fields()
      ensures Moved(c0, true) && Core()
    {
      hide Step;
      assert Src()[..Taken()] == Src();
    }

    /** A case that goes on has made the machine's step. */
    lemma {:induction false} Going(c0: Cfg)
      requires Shape() && Buffer() && Goes(c0, S(), Lim(), Abs()) && Fields() &&
               (bits < 8 || mode == BAD || mode == STORED)
      ensures Moved(c0, false) && Core()
    {
      hide Step, Final, Path;
      GoesSteps(c0, S(), Lim(), Abs());
    }

    /** The same, the machine's next configuration being d. */
    lemma {:induction false} GoingTo(c0: Cfg, d: Cfg)
      requires Shape() && Buffer() && Goes(c0, S(), Lim(), d) && d == Cfg(Ph(), last, Pos(), Out())
      requires Fields() && (bits < 8 || mode == BAD || mode == STORED)
      ensures Moved(c0, false) && Core()
    {
      hide Step, Final, Path;
      Going(c0);
    }

    /** With eight bits or more at hand, the machine waits in what has been taken. */
    lemma {:induction false} LeanWaits()
      requires Core() && bits >= 8 && mode != BAD && mode != STORED
      ensures WF(Abs(), Seen()) && Step(Abs(), Seen(), |Out()| + 1).None?
    {
      hide Step;
    }

    lemma {:induction false} SeenIsAtHand()
      requires Shape() && Buffer()
      ensures Pos() <= |Seen()| && Seen()[Pos()..] == AtHand()
    {
      BB.TakenBits(Src(), Taken());
    }

    // ---- Block headers ---------------------------------------------------------------------

    lemma {:induction false} AtType()
      requires Core() && mode == TYPE
      ensures bits < 8 && ahead == 0
      ensures last ==> Goes(Abs(), S(), Lim(), Cfg(Done, true, Align(Pos()), Out()))
      ensures !last && Pos() + 3 > |S()| ==> Step(Abs(), S(), |Out()| + 1).None? && Step(Abs(), S(), Lim()).None?
      ensures !last && Pos() + 3 <= |S()| ==>
        Goes(Abs(), S(), Lim(), Cfg(TypePhase(Num(S(), Pos() + 1, 2)), S()[Pos()], Pos() + 3, Out()))
    {
      hide Lean, LeanAt, Step, Leads, Goes, WF, PhaseOK, Moved, FixedOK, CodeTables, ByteBits, Num, Pow2, BB.Holds;
      TypeRun(last, S(), Pos(), Out(), Lim());
      TypeRun(last, S(), Pos(), Out(), |Out()| + 1);
      if bits >= 8 {
        LeanWaits();
        TypeRun(last, Seen(), Pos(), Out(), |Out()| + 1);
        GoesSteps(Abs(), Seen(), |Out()| + 1, Cfg(Done, true, Align(Pos()), Out()));
      }
    }

    /** The two header fields of a block: NEEDBITS(3), then one bit, then two. */
    method TakeHeader() returns (ok: bool, final: bool, btype: nat)
      requires Shape() && Buffer()
      modifies `nextIn, `hold, `bits
      ensures Shape() && Buffer()
      ensures ok ==> old(Pos()) + 3 == Pos() <= |S()| && final == S()[old(Pos())]
                     && btype == Num(S(), old(Pos()) + 1, 2) <= 3
      ensures ok && old(bits) < 8 ==> bits < 8
      ensures !ok ==> Pos() == old(Pos()) && bits < 3 && nextIn == |input| && Pos() + 3 > |S()|
    {
      hide ByteBits, Num, BB.Holds;
      ok := NeedBits(3);
      final, btype := false, 0;
      if ok {
        var v;
        ok, v := TakeBits(1);
        NumOfOne(S(), Pos() - 1);
        final := v == 1;
        Pow2Values();
        ok, btype := TakeBits(2);
      }
    }

    method StepType() returns (stop: bool)
      requires Core() && FixedOK() && mode == TYPE
      modifies `nextIn, `hold, `bits, `mode, `last, `virgin, `lencode, `lenStart, `lenEnd, `lenbits,
               `distcode, `distStart, `distEnd, `distbits, `c, lens, work, fixedTab
      ensures Core() && Moved(old(Abs()), stop) && FixedOK() && (mode == LEN ==> CodeTables())
      ensures mode in {TYPE, CHECK, STORED, LEN, TABLE, BAD}
    {
      hide Lean, LeanAt, Moved, FixedOK, CodeTables, WF, Step, Abs, Out, Src, S, Taken, Lim;
      if last {
        LastBlock();
        stop := false;
      } else {
        stop := BlockHeader();
      }
    }

    /** After the last block: BYTEBITS. */
    method LastBlock()
      requires Core() && mode == TYPE && last
      modifies `hold, `bits, `mode
      ensures Core() && Moved(old(Abs()), false) && mode == CHECK
    {
      hide Lean, LeanAt, Step, Leads, Goes, WF, PhaseOK, Moved, ByteBits, Num, Pow2, BB.Holds, FixedOK,
           Abs, Pos, Out, Src, S, Taken, Lim;
      ghost var c0, c1 := Abs(), Cfg(Done, true, Align(Pos()), Out());
      AtType();
      assert Goes(c0, S(), Lim(), c1);
      ByteAlign();
      mode := CHECK;
      GoingTo(c0, c1);
    }

    /** The header of a block. */
    method BlockHeader() returns (stop: bool)
      requires Core() && FixedOK() && mode == TYPE && !last
      modifies `nextIn, `hold, `bits, `mode, `last, `virgin, `lencode, `lenStart, `lenEnd, `lenbits,
               `distcode, `distStart, `distEnd, `distbits, `c, lens, work, fixedTab
      ensures Core() && Moved(old(Abs()), stop) && FixedOK() && (mode == LEN ==> CodeTables())
      ensures mode in {TYPE, STORED, LEN, TABLE, BAD}
    {
      hide Lean, LeanAt, Step, Leads, Goes, WF, PhaseOK, Moved, FixedOK, CodeTables, ByteBits, Num, Pow2, BB.Holds,
           Abs, Ph, ModeFields, TypePhase, Pos, Out, Src, S, Taken, Lim;
      ghost var c0, p := Abs(), Pos();
      AbsIs();
      AtType();
      ghost var c1 := if p + 3 <= |S()| then Cfg(TypePhase(Num(S(), p + 1, 2)), S()[p], p + 3, Out()) else c0;
      assert p + 3 <= |S()| ==> Goes(c0, S(), Lim(), c1);
      var ok, final, btype := TakeHeader();
      if !ok {
        AbsIs();
        AnyBits();
        Waiting(c0);
        return true;
      }
      EnterBlock(final, btype);
      GoingTo(c0, c1);
      return false;
    }

    method EnterBlock(final: bool, btype: nat)
      requires Shape() && FixedOK() && ahead == 0 && bits < 8
      modifies `mode, `last, `virgin, `lencode, `lenStart, `lenEnd, `lenbits,
               `distcode, `distStart, `distEnd, `distbits, `c, lens, work, fixedTab
      ensures last == final && FixedOK() && (mode == LEN ==> CodeTables())
      ensures Fields() && Ph() == TypePhase(btype) && mode in {STORED, LEN, TABLE, BAD}
    {
      hide FixedOK, CodeTables;
      if btype == 1 { FixedTables(); }
      last, mode := final, match btype case 0 => STORED case 1 => LEN case 2 => TABLE case _ => BAD;
    }

    method FixedLiteralLengths()
      requires Shape()
      modifies lens
      ensures lens[..288] == FixedLengths()
    {
      var sym := 0;
      while sym < 144
        invariant sym <= 144 && forall i :: 0 <= i < sym ==> lens[i] == 8
      {
        lens[sym] := 8;
        sym := sym + 1;
      }
      while sym < 256
        invariant 144 <= sym <= 256
        invariant forall i :: 0 <= i < sym ==> lens[i] == if i < 144 then 8 else 9
      {
        lens[sym] := 9;
        sym := sym + 1;
      }
      while sym < 280
        invariant 256 <= sym <= 280
        invariant forall i :: 0 <= i < sym ==> lens[i] == if i < 144 then 8 else if i < 256 then 9 else 7
      {
        lens[sym] := 7;
        sym := sym + 1;
      }
      while sym < 288
        invariant 280 <= sym <= 288
        invariant forall i :: 0 <= i < sym ==>
          lens[i] == if i < 144 then 8 else if i < 256 then 9 else if i < 280 then 7 else 8
      {
        lens[sym] := 8;
        sym := sym + 1;
      }
    }

    method FixedDistanceLengths()
      requires Shape()
      modifies lens
      ensures lens[..32] == FixedDistances()
    {
      var sym := 0;
      while sym < 32
        invariant sym <= 32 && forall i :: 0 <= i < sym ==> lens[i] == 5
      {
        lens[sym] := 5;
        sym := sym + 1;
      }
    }

    /** Build the fixed tables on the first call, and use them. */
    method FixedTables()
      requires Shape() && FixedOK()
      modifies `virgin, `lencode, `lenStart, `lenEnd, `lenbits, `distcode, `distStart, `distEnd, `distbits, `c,
               lens, work, fixedTab
      ensures FixedOK() && c == Fixed() && CodeTables()
    {
      hide TableOK, AtMost, Acceptable, FixedLengths, FixedDistances;
      if virgin { BuildFixedTables(); }
      UseLenTable(fixedTab, 0, 512, 9);
      UseDistTable(fixedTab, 512, 544, 5);
      c := Fixed();
    }

    method BuildFixedTables()
      requires Shape()
      modifies `virgin, lens, work, fixedTab
      ensures !virgin && FixedOK()
    {
      hide TableOK, AtMost, Acceptable, FixedLengths, FixedDistances;
      FixedFacts();
      Pow2Values();
      FixedLiteralLengths();
      BuildFixed(LENS, lens[..288], 0, 9);
      ghost var t := fixedTab[..512];
      FixedDistanceLengths();
      BuildFixed(DISTS, lens[..32], 512, 5);
      assert fixedTab[..512] == t;
      virgin := false;
    }

    /** One of the two fixed tables, which fills its part of fixedTab exactly. */
    method BuildFixed(kind: Kind, l: Lens, start: nat, root: nat)
      requires Shape() && |l| <= Limit(kind) && Acceptable(kind, l)
      requires (start == 0 && root == 9) || (start == 512 && root == 5)
      requires AtMost(l, root) && forall r: nat :: AtMost(l, r) ==> root <= r
      modifies work, fixedTab
      ensures TableOK(kind, l, fixedTab[start..start + Pow2(root)], root)
      ensures forall i :: 0 <= i < start ==> fixedTab[i] == old(fixedTab[i])
    {
      hide TableOK;
      Pow2Values();
      var ret, next, r := T.InflateTable(kind, l, fixedTab, start, root, work);
      TableSize(kind, l, fixedTab[start..next], r);
    }

    // ---- Stored blocks ----------------------------------------------------------------------

    /** BYTEBITS: drop to the byte boundary. */
    method ByteAlign()
      requires Shape() && Buffer()
      modifies `hold, `bits
      ensures Buffer() && Pos() == Align(old(Pos())) && bits % 8 == 0 && bits <= old(bits)
    {
      hide Align;
      AlignDrops(Taken(), bits);
      DropBits(bits % 8);
    }

    /** What the machine does at a stored block header, once aligned. */
    lemma {:induction false} AtStored()
      requires Shape() && Buffer() && WF(Abs(), S()) && mode == STORED && bits % 8 == 0
      ensures Pos() % 8 == 0
      ensures Pos() + 32 > |S()| ==> Step(Abs(), S(), |Out()| + 1).None? && Step(Abs(), S(), Lim()).None?
      ensures Pos() + 32 <= |S()| ==>
        var len, nlen := Num(S(), Pos(), 16), Num(S(), Pos() + 16, 16);
        if len + nlen == 65535 then Goes(Abs(), S(), Lim(), Cfg(Copy(len), last, Pos() + 32, Out()))
        else Goes(Abs(), S(), Lim(), Cfg(Bad(32), last, Pos(), Out()))
    {
      hide Lean, LeanAt, Step, Leads, Goes, WF, PhaseOK, Moved, FixedOK, CodeTables, ByteBits, Num, Pow2, BB.Holds;
      StoredRun(last, S(), Pos(), Out(), Lim());
      StoredRun(last, S(), Pos(), Out(), |Out()| + 1);
    }

    /** The length and its complement, once 32 bits are at hand. */
    lemma {:induction false} StoredHeader()
      requires Shape() && Buffer() && bits == 32
      ensures Pos() + 32 <= |S()|
      ensures Low(hold, 16) == Num(S(), Pos(), 16) < 65536
      ensures Low(Shr(hold, 16), 16) == Num(S(), Pos() + 16, 16) < 65536
    {
      BB.LowBits(Src(), Taken(), hold, bits, 16);
      BB.Dropped(Src(), Taken(), hold, bits, 16);
      BB.LowBits(Src(), Taken(), Shr(hold, 16), 16, 16);
      Split(hold, 16);
      Split(Shr(hold, 16), 16);
      Pow2Values();
    }

    /** Check the header that is at hand. */
    method EnterStored()
      requires Shape() && Buffer() && bits == 32 && mode == STORED
      modifies `hold, `bits, `mode, `length, `ahead
      ensures Shape() && Buffer() && old(Pos()) + 32 <= |S()|
      ensures var len, nlen := Num(S(), old(Pos()), 16), Num(S(), old(Pos()) + 16, 16);
        if len + nlen == 65535
        then mode == COPY && ahead == old(ahead) && length == len && bits == 0 && Pos() == old(Pos()) + 32
        else mode == BAD && Pos() == old(Pos()) && ahead == 32 && bits == 32
    {
      hide ByteBits, Num, BB.Holds, Low, Shr;
      StoredHeader();
      if Low(hold, 16) + Low(Shr(hold, 16), 16) != 65535 {
        mode, ahead := BAD, 32;
      } else {
        length := Low(hold, 16);
        DropBits(32);
        mode := COPY;
      }
    }

    method StepStored() returns (stop: bool)
      requires Core() && mode == STORED
      modifies `nextIn, `hold, `bits, `mode, `length, `ahead
      ensures Core() && Moved(old(Abs()), stop) && mode in {STORED, COPY, BAD}
    {
      hide Lean, Step, Leads, Goes, WF, PhaseOK, Moved, ByteBits, Num, Pow2, BB.Holds;
      ghost var c0 := Abs();
      ByteAlign();
      ghost var c1 := Abs();
      Aligned(c0);
      stop := AfterAlign();
      Joined(c0, c1, stop);
    }

    /** The header, from the byte boundary on. */
    method AfterAlign() returns (stop: bool)
      requires Shape() && Buffer() && WF(Abs(), S()) && mode == STORED && ahead == 0 && bits % 8 == 0
      modifies `nextIn, `hold, `bits, `mode, `length, `ahead
      ensures Core() && Moved(old(Abs()), stop) && mode in {STORED, COPY, BAD}
    {
      hide Lean, Step, Leads, Goes, WF, PhaseOK, Moved, ByteBits, Num, Pow2, BB.Holds, LeanAt,
           Abs, Pos, Out, Src, S, Taken, Lim;
      ghost var c0, p := Abs(), Pos();
      AbsIs();
      AtStored();
      ghost var c1 := if p + 32 > |S()| then c0
                      else if Num(S(), p, 16) + Num(S(), p + 16, 16) == 65535
                      then Cfg(Copy(Num(S(), p, 16)), last, p + 32, Out())
                      else Cfg(Bad(32), last, p, Out());
      assert p + 32 <= |S()| ==> Goes(c0, S(), Lim(), c1);
      var ok := NeedBits(32);
      if !ok {
        AbsIs();
        AnyBits();
        Waiting(c0);
        return true;
      }
      EnterStored();
      GoingTo(c0, c1);
      return false;
    }

    lemma {:induction false} Aligned(c0: Cfg)
      requires Shape() && Buffer() && mode == STORED && WF(c0, S())
      requires c0 == Cfg(Stored, last, c0.pos, Out()) && Pos() == Align(c0.pos)
      ensures WF(Abs(), S()) && (c0 == Abs() || Leads(c0, S(), Lim(), Abs()))
    {
      hide Step, Leads, Goes, WF, PhaseOK, Moved, FixedOK, CodeTables, ByteBits, Num, Pow2, BB.Holds;
      if c0.pos % 8 != 0 {
        AlignRun(last, S(), c0.pos, Out(), Lim());
        GoesSteps(c0, S(), Lim(), Abs());
      }
    }

    /** A move that follows another. */
    lemma {:induction false} Joined(c0: Cfg, c1: Cfg, stop: bool)
      requires Shape() && Buffer() && (c0 == c1 || Leads(c0, S(), Lim(), c1)) && Moved(c1, stop)
      ensures Moved(c0, stop)
    {
      hide Step, Final;
      if c0 != c1 && Leads(c1, S(), Lim(), Abs()) { Twice(c0, S(), Lim(), c1, Abs()); }
    }

    lemma {:induction false} AtCopyEnd()
      requires Core() && mode == COPY && length == 0
      ensures Goes(Abs(), S(), Lim(), Cfg(Type, last, Pos(), Out()))
    {
      hide Lean, LeanAt, Step, Leads, Goes, WF, PhaseOK, Moved, FixedOK, CodeTables, ByteBits, Num, Pow2, BB.Holds;
      CopyEnd(last, S(), Pos(), Out(), Lim());
    }

    /** n bytes of a stored block, from whole bytes of input. */
    lemma {:induction false} AtCopy(n: nat)
      requires Core() && mode == COPY && n <= length && nextIn + n <= |input| && nextOut + n <= output.Length
      ensures n > 0 ==>
        Leads(Abs(), S(), Lim(),
              Cfg(Copy(length - n), last, Pos() + 8 * n, Out() + input[nextIn..nextIn + n]))
      ensures (length > 0 && nextIn == |input|) || (length > 0 && nextOut == output.Length) ==>
        Step(Abs(), S(), Lim()).None?
      ensures length > 0 && nextIn < |input| ==> Step(Abs(), S(), |Out()| + 1).Some?
    {
      hide Lean, LeanAt, Step, Path, Goes, WF, PhaseOK, Moved, FixedOK, CodeTables, ByteBits, Num, Pow2, BB.Holds;
      if n > 0 {
        CopyRun(length, last, S(), Pos(), Out(), Lim(), n);
        assert n > 0;
        BytesAtAre(Src(), Taken(), n);
        assert Src()[Taken()..Taken() + n] == input[nextIn..nextIn + n];
      }
      if length > 0 {
        CopyWaits(length, last, S(), Pos(), Out(), Lim());
        CopyWaits(length, last, S(), Pos(), Out(), |Out()| + 1);
      }
    }

    method StepCopy() returns (stop: bool)
      requires Core() && mode == COPY
      modifies `nextIn, `nextOut, `length, `mode, output
      ensures Core() && Moved(old(Abs()), stop) && mode in {COPY, TYPE}
    {
      hide Lean, LeanAt, Step, Leads, Goes, WF, PhaseOK, Moved, ByteBits, Num, Pow2, BB.Holds,
           Abs, Pos, Out, Src, S, Taken, Lim;
      ghost var c0 := Abs();
      AbsIs();
      if length == 0 {
        AtCopyEnd();
        mode := TYPE;
        AbsIs();
        GoingTo(c0, Cfg(Type, last, Pos(), Out()));
        return false;
      }
      var n := Min(Min(length, |input| - nextIn), output.Length - nextOut);
      AtCopy(n);
      if n == 0 {
        Stopping(c0);
        return true;
      }
      ghost var c1 := Cfg(Copy(length - n), last, Pos() + 8 * n, Out() + input[nextIn..nextIn + n]);
      CopyIn(n);
      LedTo(c0, c1);
      return false;
    }

    /** zmemcpy(put, next, n) */
    method CopyIn(n: nat)
      requires Shape() && Buffer() && bits == 0 && n <= length && nextIn + n <= |input| && nextOut + n <= output.Length
      modifies `nextIn, `nextOut, `length, output
      ensures Shape() && Buffer() && nextIn == old(nextIn) + n && nextOut == old(nextOut) + n
      ensures length == old(length) - n
      ensures Pos() == old(Pos()) + 8 * n && Out() == old(Out()) + input[nextIn - n..nextIn]
    {
      hide BB.Holds, ByteBits;
      BB.EmptyMoves(Src(), Taken(), n);
      ghost var o := output[..nextOut];
      forall i | 0 <= i < n { output[nextOut + i] := input[nextIn + i]; }
      assert output[..nextOut + n] == o + input[nextIn..nextIn + n];
      nextIn, nextOut, length := nextIn + n, nextOut + n, length - n;
    }

    /** A case that stops where it started. */
    lemma {:induction false} Stopping(c0: Cfg)
      requires Shape() && Buffer() && c0 == Abs() && WF(c0, S()) && Step(c0, S(), Lim()).None?
      requires nextIn == |input| || (bits < 8 && Step(c0, S(), |Out()| + 1).Some?)
      requires !Finished() && mode != HEAD
      ensures Moved(c0, true)
    {
      hide Step;
    }

    /** A case that goes on by more than one step. */
    lemma {:induction false} Led(c0: Cfg)
      requires Shape() && Buffer() && Leads(c0, S(), Lim(), Abs()) && Fields() &&
               (bits < 8 || mode == BAD || mode == STORED)
      ensures Moved(c0, false) && Core()
    {
      hide Step, Final, Path, Leads;
      LeadsFacts(c0, S(), Lim(), Abs());
    }

    /** The same, the machine's configuration being d. */
    lemma {:induction false} LedTo(c0: Cfg, d: Cfg)
      requires Shape() && Buffer() && Leads(c0, S(), Lim(), d) && d == Cfg(Ph(), last, Pos(), Out())
      requires Fields() && (bits < 8 || mode == BAD || mode == STORED)
      ensures Moved(c0, false) && Core()
    {
      hide Leads;
      Led(c0);
    }

    // ---- Dynamic codes ------------------------------------------------------------------------

    lemma {:induction false} AtTable()
      requires Core() && mode == TABLE
      ensures bits < 14 && ahead == 0
      ensures Pos() + 14 > |S()| ==> Step(Abs(), S(), |Out()| + 1).None? && Step(Abs(), S(), Lim()).None?
      ensures Pos() + 14 <= |S()| ==>
        Goes(Abs(), S(), Lim(), Cfg(TablePhase(Pos(), S()), last, Pos() + 14, Out()))
    {
      hide Lean, LeanAt, Step, Leads, Goes, WF, PhaseOK, Moved, FixedOK, CodeTables, ByteBits, Num, Pow2, BB.Holds;
      TableRun(last, S(), Pos(), Out(), Lim());
      TableRun(last, S(), Pos(), Out(), |Out()| + 1);
      if bits >= 8 {
        LeanWaits();
        TableRun(last, Seen(), Pos(), Out(), |Out()| + 1);
      }
    }

    /** NEEDBITS(14), then three fields. */
    method TakeCounts() returns (ok: bool, a: nat, b: nat, n: nat)
      requires Shape() && Buffer()
      modifies `nextIn, `hold, `bits
      ensures Shape() && Buffer()
      ensures ok ==> old(Pos()) + 14 == Pos() <= |S()| && a == Num(S(), old(Pos()), 5)
                     && b == Num(S(), old(Pos()) + 5, 5) && n == Num(S(), old(Pos()) + 10, 4) <= 15
      ensures ok && old(bits) < 14 ==> bits < 8
      ensures !ok ==> Pos() == old(Pos()) && bits < 14 && nextIn == |input| && Pos() + 14 > |S()|
    {
      hide Num, S, Src, Taken, Pos, Buffer, Shape;
      ok := NeedBits(14);
      a, b, n := 0, 0, 0;
      if ok { a, b, n := TakeFields(); }
    }

    method TakeFields() returns (a: nat, b: nat, n: nat)
      requires Shape() && Buffer() && bits >= 14
      modifies `nextIn, `hold, `bits
      ensures Shape() && Buffer() && bits == old(bits) - 14 && old(Pos()) + 14 == Pos() <= |S()|
      ensures a == Num(S(), old(Pos()), 5) && b == Num(S(), old(Pos()) + 5, 5)
      ensures n == Num(S(), old(Pos()) + 10, 4) <= 15
    {
      hide Num, S, Src, Taken, Pos, Buffer, Shape;
      Pow2Values();
      var ok;
      ok, a := TakeBits(5);
      ok, b := TakeBits(5);
      ok, n := TakeBits(4);
    }

    method StepTable() returns (stop: bool)
      requires Core() && mode == TABLE
      modifies `nextIn, `hold, `bits, `mode, `nlen, `ndist, `ncode, `have, `got
      ensures Core() && LensOK() && Moved(old(Abs()), stop) && mode in {TABLE, LENLENS, BAD}
    {
      hide Lean, LeanAt, Step, Leads, Goes, WF, PhaseOK, Moved, ByteBits, Num, Pow2, BB.Holds,
           Abs, Ph, ModeFields, BitFields, LensOK, Pos, Out, Src, S, Taken, Lim, Buffer;
      ghost var c0, p := Abs(), Pos();
      AbsIs();
      AtTable();
      ghost var c1 := if p + 14 <= |S()| then Cfg(TablePhase(p, S()), last, p + 14, Out()) else c0;
      var ok, a, b, n := TakeCounts();
      if !ok {
        AbsIs();
        AnyBits();
        Waiting(c0);
        NoLens();
        return true;
      }
      SetCounts(a, b, n, TablePhase(p, S()));
      GoingTo(c0, c1);
      return false;
    }

    method SetCounts(a: nat, b: nat, n: nat, ghost ph: Phase)
      requires lens.Length == 320 && ahead == 0 && bits < 8
      requires ph == if a > 29 || b > 29 then Bad(0) else LenLens(a + 257, b + 1, n + 4, [])
      modifies `mode, `nlen, `ndist, `ncode, `have, `got
      ensures mode in {LENLENS, BAD} && Ph() == ph && Fields() && LensOK()
    {
      nlen, ndist, ncode := a + 257, b + 1, n + 4;
      have, got := 0, [];
      mode := if nlen > 286 || ndist > 30 then BAD else LENLENS;
    }

    lemma {:induction false} AtClNumber()
      requires Core() && mode == LENLENS && have < ncode
      ensures bits < 8
      ensures Pos() + 3 > |S()| ==> Step(Abs(), S(), |Out()| + 1).None? && Step(Abs(), S(), Lim()).None?
      ensures Pos() + 3 <= |S()| ==> Num(S(), Pos(), 3) <= 7
      ensures Pos() + 3 <= |S()| ==>
        Goes(Abs(), S(), Lim(), Cfg(LenLens(nlen, ndist, ncode, got + [Num(S(), Pos(), 3)]), last, Pos() + 3, Out()))
    {
      hide Lean, LeanAt, Step, Leads, Goes, WF, PhaseOK, Moved, FixedOK, CodeTables, ByteBits, Num, Pow2, BB.Holds;
      ClNumberRun(nlen, ndist, ncode, got, last, S(), Pos(), Out(), Lim());
      ClNumberRun(nlen, ndist, ncode, got, last, S(), Pos(), Out(), |Out()| + 1);
      if bits >= 8 {
        LeanWaits();
        ClNumberRun(nlen, ndist, ncode, got, last, Seen(), Pos(), Out(), |Out()| + 1);
      }
    }

    method StoreClNumber(v: nat)
      requires Shape() && LensOK() && ModeFields() && mode == LENLENS && |got| == have < 19 && v <= 7
      modifies `have, `got, lens
      ensures LensOK() && ModeFields() && have == old(have) + 1 == |got| && got == old(got) + [v]
    {
      forall i: nat | i < have ensures OrderAt(i) != OrderAt(have) {
        if OrderAt(i) == OrderAt(have) { OrderInjective(i, have); }
      }
      lens[OrderAt(have)] := v;
      have, got := have + 1, got + [v];
    }

    /** One code length of the code length code. */
    method StepClNumber() returns (stop: bool)
      requires Core() && LensOK() && mode == LENLENS && have < ncode && ncode <= 19
      modifies `nextIn, `hold, `bits, `have, `got, lens
      ensures Core() && LensOK() && Moved(old(Abs()), stop)
    {
      hide Lean, LeanAt, Step, Leads, Goes, WF, PhaseOK, Moved, ByteBits, Num, Pow2, BB.Holds,
           Abs, Pos, Out, Src, S, Taken, Lim, ModeFields, LensOK,
           BitFields, Buffer;
      ghost var c0, p := Abs(), Pos();
      AbsIs();
      AtClNumber();
      ghost var c1 := if p + 3 <= |S()|
                      then Cfg(LenLens(nlen, ndist, ncode, got + [Num(S(), p, 3)]), last, p + 3, Out())
                      else c0;
      assert p + 3 <= |S()| ==> Goes(c0, S(), Lim(), c1);
      var ok, v := TakeBits(3);
      if !ok {
        AbsIs();
        AnyBits();
        Waiting(c0);
        return true;
      }
      Pow2Is8();
      GotHave();
      StoreClNumber(v);
      AnyBits();
      GoingTo(c0, c1);
      return false;
    }

    lemma {:induction false} GotHave()
      requires ModeFields() && (mode == LENLENS || mode == CODELENS)
      ensures |got| == have && ahead == 0
    {}

    lemma {:induction false} SmallCl()
      requires ModeFields() && mode == LENLENS
      ensures AtMost(ClLens(got), 7)
    {
      hide ClLens, AtMost;
      ClSmall(got);
    }

    /** Clear the lengths that were not sent. */
    method ClearRest()
      requires Shape() && LensOK() && mode == LENLENS && have == |got|
      modifies `have, lens
      ensures lens[..19] == ClLens(got)
    {
      while have < 19
        invariant |got| <= have <= 19
        invariant forall i :: 0 <= i < have ==> lens[OrderAt(i)] == if i < |got| then got[i] else 0
      {
        forall i: nat | i < have ensures OrderAt(i) != OrderAt(have) {
          if OrderAt(i) == OrderAt(have) { OrderInjective(i, have); }
        }
        lens[OrderAt(have)] := 0;
        have := have + 1;
      }
      forall s: nat | s < 19 ensures lens[s] == ClLens(got)[s] {
        OrderRank(s);
        assert lens[OrderAt(RANK[s])] == if RANK[s] < |got| then got[RANK[s]] else 0;
      }
    }

    lemma {:induction false} AtClCode()
      requires Core() && mode == LENLENS && have == ncode
      ensures bits < 8 && |got| == have <= 19
      ensures var l := ClLens(got);
        Goes(Abs(), S(), Lim(),
             Cfg(if Acceptable(CODES, l) then CodeLens(nlen, ndist, l, []) else Bad(0), last, Pos(), Out()))
    {
      hide Lean, LeanAt, Step, Leads, WF, ByteBits, Num, Pow2, BB.Holds, Acceptable, ClLens;
      ghost var l := ClLens(got);
      WFPhase(Abs(), S());
      ClCodeRun(nlen, ndist, ncode, got, last, S(), Pos(), Out(), Lim());
      if bits >= 8 {
        LeanWaits();
        ClCodeRun(nlen, ndist, ncode, got, last, Seen(), Pos(), Out(), |Out()| + 1);
      }
    }

    /** inflate_table on the code length code. */
    method BuildClTable(ghost l: Lens) returns (ret: int, next: nat, root: nat)
      requires Shape() && |l| == 19 && AtMost(l, 7) && lens[..19] == l
      modifies work, codes
      ensures ret == 0 <==> Acceptable(CODES, l)
      ensures ret == 0 ==> next <= InfTrees.ENOUGH && TableOK(CODES, l, codes[0..next], root) && AtMost(l, root)
    {
      hide TableOK, Acceptable, TS.Room, AtMost, Kraft, Pow2, T.RootFor;
      TS.TablesFit([], [], l);
      ret, next, root := T.InflateTable(CODES, lens[..19], codes, 0, 7, work);
    }

    /** Build the table of the code length code. */
    method StepClCode() returns (stop: bool)
      requires Core() && LensOK() && mode == LENLENS && have == ncode
      modifies `have, `got, `mode, `cl, `lencode, `lenStart, `lenEnd, `lenbits, lens, work, codes
      ensures Core() && LensOK() && Moved(old(Abs()), stop) && !stop && mode in {CODELENS, BAD}
      ensures mode == CODELENS ==> ClTable()
    {
      hide Lean, LeanAt, Step, Leads, Goes, WF, PhaseOK, Moved, ByteBits, Num, Pow2, BB.Holds, Acceptable, ClLens,
           ClTable, ModeFields, LensOK, Ph, Shape, Abs, Pos, Out, Src, S, Taken, Lim;
      ghost var c0, l := Abs(), ClLens(got);
      AbsIs();
      InRange();
      AtClCode();
      ghost var c1 := Cfg(if Acceptable(CODES, l) then CodeLens(nlen, ndist, l, []) else Bad(0), last, Pos(), Out());
      assert Goes(c0, S(), Lim(), c1);
      ClCodeTable();
      GoingTo(c0, c1);
      return false;
    }

    /** The table of the code length code, or BAD. */
    method ClCodeTable()
      requires Shape() && ModeFields() && LensOK() && mode == LENLENS && bits < 8
      modifies `have, `got, `mode, `cl, `lencode, `lenStart, `lenEnd, `lenbits, lens, work, codes
      ensures LensOK() && Fields() && mode in {CODELENS, BAD} && (mode == CODELENS ==> ClTable())
      ensures var l := ClLens(old(got));
              Ph() == if Acceptable(CODES, l) then CodeLens(nlen, ndist, l, []) else Bad(0)
    {
      hide TableOK, Acceptable, ClLens, AtMost, ClTable, ModeFields, Ph;
      ghost var l := ClLens(got);
      GotHave();
      SmallCl();
      ClearRest();
      var ret, next, root := BuildClTable(l);
      EnterCodeLens(ret, next, root, l);
    }

    method EnterCodeLens(ret: int, next: nat, root: nat, ghost l: Lens)
      requires |l| == 19 && mode == LENLENS && ahead == 0 && bits < 8
      requires ret == 0 ==> next <= codes.Length && TableOK(CODES, l, codes[0..next], root) && AtMost(l, root)
      modifies `have, `got, `mode, `cl, `lencode, `lenStart, `lenEnd, `lenbits
      ensures mode in {CODELENS, BAD} && Fields() && (mode == CODELENS ==> ClTable() && got == [])
      ensures Ph() == if ret == 0 then CodeLens(nlen, ndist, l, []) else Bad(0)
    {
      hide TableOK, AtMost;
      have, got, cl := 0, [], l;
      if ret == 0 { UseLenTable(codes, 0, next, root); }
      mode := if ret == 0 then CODELENS else BAD;
    }

    method StepLenLens() returns (stop: bool)
      requires Core() && LensOK() && mode == LENLENS
      modifies `nextIn, `hold, `bits, `have, `got, `mode, `cl, `lencode, `lenStart, `lenEnd, `lenbits, lens, work, codes
      ensures Core() && LensOK() && Moved(old(Abs()), stop) && mode in {LENLENS, CODELENS, BAD}
      ensures mode == CODELENS ==> ClTable()
    {
      hide Step, Leads, Goes, Moved, ByteBits, Num, Pow2, BB.Holds, LensOK, ClTable;
      WFPhase(Abs(), S());
      if have < ncode {
        stop := StepClNumber();
      } else {
        stop := StepClCode();
      }
    }

    /** The symbol of the code length code that comes next. */
    ghost function ClSymbol(): Decoded
      reads `past, `input, `nextIn, `hold, `bits, `cl
      requires Buffer()
    {
      DecodeCl(cl, Ahead())
    }

    lemma {:induction false} AtCodeLen()
      requires Core() && mode == CODELENS && have < nlen + ndist
      ensures |cl| == 19 && Acceptable(CODES, cl) && bits < 23 && Thrifty(cl) && |got| == have && ahead == 0
      ensures var d := ClSymbol();
        && !d.Invalid? && (d.Found? ==> d.s < 19 && 1 <= d.n && Pos() + d.n <= |S()|)
        && (d.More? || (d.s >= 16 && Pos() + d.n + RepeatBits(d.s) > |S()|) ==>
            Step(Abs(), S(), |Out()| + 1).None? && Step(Abs(), S(), Lim()).None?)
        && (d.Found? && (d.s < 16 || Pos() + d.n + RepeatBits(d.s) <= |S()|) ==>
            Goes(Abs(), S(), Lim(), AfterCodeLen(Abs(), S(), d.s, d.n)))
    {
      hide Lean, LeanAt, Step, Leads, Goes, WF, ByteBits, Num, Pow2, BB.Holds, Acceptable, Decode, AfterCodeLen,
           Pos, Out, Src, S, Taken, Lim;
      WFPhase(Abs(), S());
      CodeLenRun(nlen, ndist, cl, got, last, S(), Pos(), Out(), Lim());
      CodeLenRun(nlen, ndist, cl, got, last, S(), Pos(), Out(), |Out()| + 1);
      if bits >= 8 { CodeLenWaits(); }
    }

    lemma {:induction false} CodeLenWaits()
      requires Core() && mode == CODELENS && have < nlen + ndist && bits >= 8
      ensures bits < 23 && Thrifty(cl)
    {
      hide Lean, LeanAt, Step, Leads, Goes, WF, ByteBits, Num, Pow2, BB.Holds, Acceptable, Decode, AfterCodeLen;
      LeanWaits();
      WFPhase(Abs(), Seen());
      SeenIsAtHand();
      CodeLenRun(nlen, ndist, cl, got, last, Seen(), Pos(), Out(), |Out()| + 1);
      ClThrifty();
    }

    lemma {:induction false} ClThrifty()
      requires Buffer() && |cl| == 19 && Acceptable(CODES, cl) && bits >= 8
      requires var d := DecodeCl(cl, AtHand());
        d.More? || (d.Found? && d.s >= 16 && d.n + RepeatBits(d.s) > bits)
      ensures bits < 23 && Thrifty(cl)
    {
      hide Acceptable, Decode, ByteBits, BB.Holds;
      HoldIsAtHand();
      DecodeUses(CODES, cl, AtHand());
      if Decode(cl, AtHand()).More? {
        MoreIsShort(CODES, cl, AtHand());
      } else if Decode(cl, AtHand()).Found? {
        ShortIsMore(CODES, cl, AtHand()[..bits - 8], AtHand());
        CodeIsShort(cl, AtHand());
      }
    }

    /** The entry found is that of the symbol. */
    lemma {:induction false} ClEntry(e: Code)
      requires Shape() && Buffer() && |cl| == 19 && Acceptable(CODES, cl) && bits < 23 && Thrifty(cl) && ClTable()
      requires Low(hold, lenbits) < lenEnd - lenStart && e == lencode[lenStart + Low(hold, lenbits)] && e.bits <= bits
      ensures ClSymbol() == Found(e.val, e.bits) && bits - e.bits < 8 && e.bits <= MAXBITS
    {
      hide Acceptable, Decode, ByteBits, BB.Holds, TableOK, AtMost, Low, LE;
      ghost var t := lencode[lenStart..lenEnd];
      TableFacts(CODES, cl, t, lenbits);
      HoldIsAtHand();
      NoLinks(CODES, cl, t, lenbits, hold);
      RootTells(CODES, cl, t, lenbits, AtHand(), Ahead());
      Leftover(CODES, cl, e, AtHand(), Ahead());
    }

    /** lens[have++] = v */
    method PutLength(v: nat)
      requires Shape() && mode == CODELENS && LensOK() && |got| == have < 316 && v <= MAXBITS
      modifies `have, `got, lens
      ensures LensOK() && have == old(have) + 1 == |got| && got == old(got) + [v]
    {
      lens[have] := v;
      have, got := have + 1, got + [v];
    }

    /** lens[have++] = v, n times. */
    method PutLengths(v: nat, n: nat)
      requires Shape() && mode == CODELENS && LensOK() && |got| == have && have + n <= 316 && v <= MAXBITS
      modifies `have, `got, lens
      ensures LensOK() && have == old(have) + n == |got| && got == old(got) + Repeat(v, n)
    {
      var copy: nat := n;
      while copy != 0
        invariant copy <= n && have == old(have) + n - copy == |got|
        invariant LensOK() && got == old(got) + Repeat(v, n - copy)
        decreases copy
      {
        PutLength(v);
        copy := copy - 1;
      }
    }

    /** The repeat count of symbol s, and the lengths it stands for. */
    method RepeatLengths(s: nat, n: nat, ghost d: Cfg)
      requires Shape() && Buffer() && LensOK() && mode == CODELENS && |got| == have <= nlen + ndist <= 316 && ahead == 0
      requires 16 <= s < 19 && (s == 16 ==> have > 0) && n <= MAXBITS && n + RepeatBits(s) <= bits
      requires Pos() + n + RepeatBits(s) <= |S()| && d == AfterCodeLen(Abs(), S(), s, n)
      modifies `nextIn, `hold, `bits, `have, `got, `mode, lens
      ensures Shape() && Buffer() && LensOK() && mode in {CODELENS, BAD} && ModeFields()
      ensures bits == old(bits) - n - RepeatBits(s) && Ph() == d.ph && Pos() == d.pos
    {
      hide ByteBits, Num, BB.Holds, Repeat, RepeatBits, RepeatBase, AfterCodeLen, Abs, S, Src, Taken, Out, LensOK, Pos,
           Ph, ModeFields;
      AbsIs();
      PhIs();
      AfterRepeat(Abs(), S(), s, n);
      RepeatSizes(s);
      var v := 0;
      if s == 16 {
        LastLength();
        v := lens[have - 1];
      }
      var r := TakeCount(s, n);
      StoreRepeat(v, RepeatBase(s) + r);
    }

    /** The extra bits of repeat symbol s, whose code of n bits is dropped. */
    method TakeCount(s: nat, n: nat) returns (r: nat)
      requires Shape() && Buffer() && 16 <= s < 19 && n + RepeatBits(s) <= bits && RepeatBits(s) <= 7
      modifies `nextIn, `hold, `bits
      ensures Shape() && Buffer() && bits == old(bits) - n - RepeatBits(s)
      ensures Pos() == old(Pos()) + n + RepeatBits(s) <= |S()| && r == Num(S(), old(Pos()) + n, RepeatBits(s))
    {
      hide RepeatBits, Num, S, Src, Taken, Pos, Buffer, Shape;
      DropBits(n);
      var ok;
      ok, r := TakeBits(RepeatBits(s));
    }

    lemma {:induction false} PhIs()
      requires mode == CODELENS
      ensures Ph() == CodeLens(nlen, ndist, cl, got)
    {}

    lemma {:induction false} LastLength()
      requires Shape() && LensOK() && mode == CODELENS && |got| == have > 0
      ensures have <= 316 && lens[have - 1] == got[have - 1] <= MAXBITS
    {}

    /** Nothing to repeat. */
    method NoRepeat(n: nat, ghost d: Cfg)
      requires Shape() && Buffer() && mode == CODELENS && |got| == have == 0 && n + 2 <= bits
      requires Pos() + n + RepeatBits(16) <= |S()| && d == AfterCodeLen(Abs(), S(), 16, n)
      modifies `hold, `bits, `mode, `ahead
      ensures Shape() && Buffer() && LensOK() && mode == BAD && ahead == 2 && bits == old(bits) - n
      ensures Ph() == d.ph && Pos() == d.pos
    {
      hide ByteBits, Num, BB.Holds;
      DropBits(n);
      mode, ahead := BAD, 2;
    }

    method StoreRepeat(v: nat, copy: nat)
      requires Shape() && mode == CODELENS && LensOK() && |got| == have <= nlen + ndist <= 316
      requires v <= MAXBITS && ahead == 0
      modifies `have, `got, `mode, lens
      ensures LensOK() && ModeFields() && mode in {CODELENS, BAD}
      ensures Ph() == if |old(got)| + copy > nlen + ndist then Bad(0)
                      else CodeLens(nlen, ndist, cl, old(got) + Repeat(v, copy))
    {
      hide Repeat;
      if have + copy > nlen + ndist {
        mode := BAD;
      } else {
        PutLengths(v, copy);
      }
    }

    /** Take the symbol of entry e off the buffer, with its extra bits, and store what
        it stands for. */
    method TakeCodeLen(e: Code) returns (ok: bool)
      requires Shape() && Buffer() && LensOK() && mode == CODELENS && |got| == have < nlen + ndist <= 316
      requires e.val < 19 && e.bits <= MAXBITS && e.bits <= bits < 23 && bits - e.bits < 8 && ahead == 0
      modifies `nextIn, `hold, `bits, `have, `got, `mode, `ahead, lens
      ensures Shape() && Buffer() && LensOK() && mode in {CODELENS, BAD} && Fields()
      ensures !ok ==> e.val >= 16 && Pos() + e.bits + RepeatBits(e.val) > |S()| && nextIn == |input|
                      && Abs() == old(Abs()) && Pos() == old(Pos()) && mode == CODELENS
      ensures ok ==> old(Pos()) + e.bits + (if e.val < 16 then 0 else RepeatBits(e.val)) <= |S()|
                     && Abs() == AfterCodeLen(old(Abs()), S(), e.val, e.bits) && (mode == BAD || bits < 8)
    {
      hide ByteBits, Num, BB.Holds, Repeat, RepeatBase, RepeatBits, LensOK, AfterCodeLen, Src, Taken, S, Abs, Ph, Pos,
           Shape;
      if e.val < 16 {
        TakeOne(e);
        ok := true;
      } else {
        ok := TakeRepeat(e);
      }
    }

    /** A single code length. */
    method TakeOne(e: Code)
      requires Shape() && Buffer() && LensOK() && mode == CODELENS && |got| == have < nlen + ndist <= 316
      requires e.val < 16 && e.bits <= bits && bits - e.bits < 8 && ahead == 0
      modifies `nextIn, `hold, `bits, `have, `got, lens
      ensures Shape() && Buffer() && LensOK() && Fields() && bits < 8
      ensures old(Pos()) + e.bits <= |S()| && Abs() == AfterCodeLen(old(Abs()), S(), e.val, e.bits)
    {
      hide ByteBits, BB.Holds, LensOK, AfterCodeLen, Src, Taken, S;
      InStream(e.bits);
      AfterShort(Abs(), S(), e.val, e.bits);
      DropBits(e.bits);
      PutLength(e.val);
    }

    /** A repeat, with its extra bits. */
    method TakeRepeat(e: Code) returns (ok: bool)
      requires Shape() && Buffer() && LensOK() && mode == CODELENS && |got| == have < nlen + ndist <= 316
      requires 16 <= e.val < 19 && e.bits <= MAXBITS && e.bits <= bits < 23 && bits - e.bits < 8 && ahead == 0
      modifies `nextIn, `hold, `bits, `have, `got, `mode, `ahead, lens
      ensures Shape() && Buffer() && LensOK() && mode in {CODELENS, BAD} && Fields()
      ensures !ok ==> Pos() + e.bits + RepeatBits(e.val) > |S()| && nextIn == |input| && Abs() == old(Abs())
                      && Pos() == old(Pos()) && mode == CODELENS
      ensures ok ==> old(Pos()) + e.bits + RepeatBits(e.val) <= |S()|
                     && Abs() == AfterCodeLen(old(Abs()), S(), e.val, e.bits) && (mode == BAD || bits < 8)
    {
      hide ByteBits, Num, BB.Holds, Repeat, RepeatBase, RepeatBits, AfterCodeLen, Src, Taken, S, Abs, Ph, Shape, Pos,
           Out, LensOK, Buffer;
      RepeatSizes(e.val);
      AbsIs();
      ok := NeedBits(e.bits + RepeatBits(e.val));
      AbsIs();
      if ok {
        InStream(e.bits + RepeatBits(e.val));
        PhIs();
        AfterKeeps(Abs(), S(), e.val, e.bits);
        ghost var d := AfterCodeLen(Abs(), S(), e.val, e.bits);
        if e.val == 16 && have == 0 {
          NoRepeat(e.bits, d);
        } else {
          RepeatLengths(e.val, e.bits, d);
        }
        AbsIs();
        assert Abs() == d;
      }
    }

    lemma {:induction false} InStream(n: nat)
      requires Buffer() && n <= bits
      ensures Pos() + n <= |S()|
    {}

    /** One symbol of the code lengths. */
    method StepCodeLen() returns (stop: bool)
      requires Core() && LensOK() && ClTable() && mode == CODELENS && have < nlen + ndist <= 316
      modifies `nextIn, `hold, `bits, `have, `got, `mode, `ahead, lens
      ensures Core() && LensOK() && Moved(old(Abs()), stop) && mode in {CODELENS, BAD}
    {
      hide Lean, LeanAt, Step, Leads, Goes, WF, PhaseOK, Moved, ByteBits, Num, Pow2, BB.Holds,
           AfterCodeLen, RepeatBits, LensOK, ClTable, Abs, Pos, Out, Src, S, Taken, Lim;
      ghost var c0 := Abs();
      var ok, e := CodeLenEntry();
      if !ok { return true; }
      TakeCodeLenGoes(e);
      ok := TakeCodeLen(e);
      if !ok {
        Waiting(c0);
        return true;
      }
      Going(c0);
      return false;
    }

    /** Whether the machine waits for the extra bits of symbol e, or where it goes. */
    ghost predicate Meant(e: Code)
      reads `mode, `length, `nlen, `ndist, `ncode, `got, `cl, `c, `extra, `offset, `ahead, `last,
            `past, `input, `nextIn, `hold, `bits, `hist, `output, `nextOut, output
      requires Shape() && Buffer() && mode == CODELENS && e.val < 19
    {
      if e.val >= 16 && Pos() + e.bits + RepeatBits(e.val) > |S()| then
        WF(Abs(), S()) && Step(Abs(), S(), |Out()| + 1).None? && Step(Abs(), S(), Lim()).None?
      else
        Pos() + e.bits <= |S()| && Goes(Abs(), S(), Lim(), AfterCodeLen(Abs(), S(), e.val, e.bits))
    }

    lemma {:induction false} TakeCodeLenGoes(e: Code)
      requires Shape() && Buffer() && mode == CODELENS && e.val < 19 && Meant(e)
      ensures e.val >= 16 && Pos() + e.bits + RepeatBits(e.val) > |S()| ==>
                WF(Abs(), S()) && Step(Abs(), S(), |Out()| + 1).None? && Step(Abs(), S(), Lim()).None?
      ensures Pos() + e.bits + (if e.val < 16 then 0 else RepeatBits(e.val)) <= |S()| ==>
                Goes(Abs(), S(), Lim(), AfterCodeLen(Abs(), S(), e.val, e.bits))
    {
      hide AfterCodeLen, RepeatBits, Goes, Step;
    }

    /** Pull bytes until the entry of the next code length symbol is decided. */
    method CodeLenEntry() returns (ok: bool, e: Code)
      requires Core() && LensOK() && ClTable() && mode == CODELENS && have < nlen + ndist <= 316
      modifies `nextIn, `hold, `bits
      ensures Shape() && Buffer() && Fields() && Abs() == old(Abs())
      ensures !ok ==> Core() && Moved(Abs(), true)
      ensures ok ==> e.val < 19 && e.bits <= MAXBITS && e.bits <= bits < 23 && bits - e.bits < 8 && Meant(e)
    {
      hide Lean, LeanAt, Step, Leads, Goes, WF, PhaseOK, Moved, ByteBits, Num, Pow2, BB.Holds,
           ClTable, Acceptable, Thrifty, AfterCodeLen, Low, RepeatBits, LensOK, Out, Src, S, Taken, Lim;
      ghost var c0, d := Abs(), ClSymbol();
      AtCodeLen();
      ClTableFacts();
      ok, e := RootEntry(CODES, cl, lencode, lenStart, lenEnd, lenbits);
      if !ok {
        MoreCl();
        Waiting(c0);
      } else {
        ClEntry(e);
      }
    }

    lemma {:induction false} ClTableFacts()
      requires ClTable()
      ensures lenStart <= lenEnd <= lencode.Length && TableOK(CODES, cl, lencode[lenStart..lenEnd], lenbits)
    {
      hide TableOK;
    }

    lemma {:induction false} MoreCl()
      requires Buffer() && Decode(cl, Ahead()).More?
      ensures ClSymbol().More?
    {
      hide Decode;
    }

    lemma {:induction false} AtCodes()
      requires Core() && mode == CODELENS && have == nlen + ndist
      ensures bits < 8 && |got| == have && nlen <= 286 && ndist <= 30
      ensures var d := Codes(got[..nlen], got[nlen..]);
        Goes(Abs(), S(), Lim(), Cfg(if CodesOK(d) then Len(d) else Bad(0), last, Pos(), Out()))
    {
      hide Lean, LeanAt, Step, Leads, Goes, WF, ByteBits, Num, Pow2, BB.Holds, CodesOK;
      WFPhase(Abs(), S());
      CodesRun(nlen, ndist, cl, got, last, S(), Pos(), Out(), Lim());
      if bits >= 8 {
        LeanWaits();
        CodesRun(nlen, ndist, cl, got, last, Seen(), Pos(), Out(), |Out()| + 1);
        var d := Codes(got[..nlen], got[nlen..]);
        GoesSteps(Abs(), Seen(), |Out()| + 1, Cfg(if CodesOK(d) then Len(d) else Bad(0), last, Pos(), Out()));
      }
    }

    /** inflate_table on the two codes of a dynamic block, the second table behind the first. */
    method BuildCodes(ghost d: Codes) returns (ok: bool, mid: nat, next: nat, lroot: nat, droot: nat)
      requires Shape() && nlen <= 286 && ndist <= 30
      requires d.ll == lens[..nlen] && d.dl == lens[nlen..nlen + ndist]
      modifies work, codes
      ensures ok <==> CodesOK(d)
      ensures ok ==> mid <= next <= InfTrees.ENOUGH && TableOK(LENS, d.ll, codes[0..mid], lroot)
                     && TableOK(DISTS, d.dl, codes[mid..next], droot)
    {
      hide TableOK, Acceptable, TS.Room, AtMost, Kraft, Pow2, T.RootFor;
      TS.TablesFit(d.ll, d.dl, []);
      var ret;
      next, droot := 0, 0;
      ret, mid, lroot := T.InflateTable(LENS, lens[..nlen], codes, 0, 9, work);
      if ret != 0 { return false, mid, next, lroot, droot; }
      ghost var t := codes[0..mid];
      ret, next, droot := T.InflateTable(DISTS, lens[nlen..nlen + ndist], codes, mid, 6, work);
      assert codes[0..mid] == t;
      return ret == 0, mid, next, lroot, droot;
    }

    method EnterCodes(ok: bool, mid: nat, next: nat, lroot: nat, droot: nat, ghost d: Codes)
      requires mode == CODELENS && ahead == 0 && bits < 8
      requires ok ==> mid <= next <= codes.Length && TableOK(LENS, d.ll, codes[0..mid], lroot)
                      && TableOK(DISTS, d.dl, codes[mid..next], droot)
      modifies `mode, `c, `lencode, `lenStart, `lenEnd, `lenbits, `distcode, `distStart, `distEnd, `distbits
      ensures mode in {LEN, BAD} && Fields() && (mode == LEN ==> CodeTables())
      ensures Ph() == if ok then Len(d) else Bad(0)
    {
      hide TableOK, CodeTables;
      if ok {
        UseLenTable(codes, 0, mid, lroot);
        UseDistTable(codes, mid, next, droot);
      }
      c, mode := d, if ok then LEN else BAD;
      if ok { TablesInUse(mid, next); }
    }

    lemma {:induction false} TablesInUse(mid: nat, next: nat)
      requires lencode == codes && lenStart == 0 && lenEnd == mid
      requires distcode == codes && distStart == mid && distEnd == next
      requires mid <= next <= codes.Length
      requires TableOK(LENS, c.ll, codes[0..mid], lenbits) && TableOK(DISTS, c.dl, codes[mid..next], distbits)
      ensures CodeTables()
    {
      hide TableOK;
    }

    method UseLenTable(tab: array<Code>, start: nat, end: nat, root: nat)
      modifies `lencode, `lenStart, `lenEnd, `lenbits
      ensures lencode == tab && lenStart == start && lenEnd == end && lenbits == root
    {
      lencode, lenStart, lenEnd, lenbits := tab, start, end, root;
    }

    method UseDistTable(tab: array<Code>, start: nat, end: nat, root: nat)
      modifies `distcode, `distStart, `distEnd, `distbits
      ensures distcode == tab && distStart == start && distEnd == end && distbits == root
    {
      distcode, distStart, distEnd, distbits := tab, start, end, root;
    }

    /** Build the two tables of a dynamic block, once all code lengths are read. */
    method StepCodes() returns (stop: bool)
      requires Core() && LensOK() && mode == CODELENS && have == nlen + ndist
      modifies `mode, `c, `lencode, `lenStart, `lenEnd, `lenbits, `distcode, `distStart, `distEnd, `distbits, work,
               codes
      ensures Core() && LensOK() && Moved(old(Abs()), stop) && !stop && mode in {LEN, BAD}
      ensures mode == LEN ==> CodeTables()
    {
      hide Lean, LeanAt, Step, Leads, Goes, WF, PhaseOK, Moved, ByteBits, Num, Pow2, BB.Holds, CodesOK, CodeTables, Ph,
           ModeFields, Abs, Pos, Out, Src, S, Taken, Lim;
      AbsIs();
      AtCodes();
      GotHave();
      ghost var c0, d := Abs(), Codes(got[..nlen], got[nlen..]);
      ghost var c1 := Cfg(if CodesOK(d) then Len(d) else Bad(0), last, Pos(), Out());
      assert Goes(c0, S(), Lim(), c1);
      BothTables(d);
      GoingTo(c0, c1);
      return false;
    }

    /** The tables of both codes, or BAD. */
    method BothTables(ghost d: Codes)
      requires Shape() && LensOK() && mode == CODELENS && ahead == 0 && bits < 8 && nlen <= 286 && ndist <= 30
      requires |got| == nlen + ndist && d.ll == got[..nlen] && d.dl == got[nlen..]
      modifies `mode, `c, `lencode, `lenStart, `lenEnd, `lenbits, `distcode, `distStart, `distEnd, `distbits, work,
               codes
      ensures Fields() && mode in {LEN, BAD} && (mode == LEN ==> CodeTables())
      ensures Ph() == if CodesOK(d) then Len(d) else Bad(0)
    {
      hide TableOK, CodesOK, CodeTables, Ph, ModeFields;
      assert lens[..nlen] == d.ll && lens[nlen..nlen + ndist] == d.dl;
      var ok, mid, next, lroot, droot := BuildCodes(d);
      EnterCodes(ok, mid, next, lroot, droot, d);
    }

    method StepCodeLens() returns (stop: bool)
      requires Core() && LensOK() && ClTable() && mode == CODELENS
      modifies `nextIn, `hold, `bits, `have, `got, `mode, `ahead, `c, `lencode, `lenStart, `lenEnd, `lenbits,
               `distcode, `distStart, `distEnd, `distbits, lens, work, codes
      ensures Core() && LensOK() && Moved(old(Abs()), stop) && mode in {CODELENS, LEN, BAD}
      ensures mode == CODELENS ==> ClTable()
      ensures mode == LEN ==> CodeTables()
    {
      hide Step, Leads, Goes, Moved, ByteBits, Num, Pow2, BB.Holds, LensOK, TableOK, CodeTables;
      WFPhase(Abs(), S());
      if have < nlen + ndist {
        stop := StepCodeLen();
      } else {
        stop := StepCodes();
      }
    }

    // ---- Lengths and distances ------------------------------------------------------------------

    lemma {:induction false} AtLen()
      requires Core() && mode == LEN
      ensures Acceptable(LENS, c.ll) && |c.ll| <= 288 && bits < MAXBITS && Thrifty(c.ll) && ahead == 0
      ensures bits < 8 || Decode(c.ll, AtHand()).More?
      ensures var d := Decode(c.ll, Ahead());
        && (d.More? ==> Step(Abs(), S(), |Out()| + 1).None? && Step(Abs(), S(), Lim()).None?)
        && (d.Found? ==> 1 <= d.n && Pos() + d.n <= |S()|)
        && (!d.More? ==> Goes(Abs(), S(), Lim(), Cfg(AfterLen(c, d), last, Pos() + Length(d), Out())))
    {
      hide Lean, LeanAt, Step, Leads, Goes, WF, ByteBits, Num, Pow2, BB.Holds, Acceptable, Decode,
           Pos, Out, Src, S, Taken, Lim;
      WFPhase(Abs(), S());
      LenRun(c, last, S(), Pos(), Out(), Lim());
      LenRun(c, last, S(), Pos(), Out(), |Out()| + 1);
      DecodeUses(LENS, c.ll, Ahead());
      if bits >= 8 { LenWaits(); }
    }

    /** Eight bits at hand are those of an incomplete symbol. */
    lemma {:induction false} LenWaits()
      requires Core() && mode == LEN && bits >= 8
      ensures Decode(c.ll, AtHand()).More? && bits < MAXBITS
    {
      hide Lean, LeanAt, Step, Leads, Goes, WF, ByteBits, BB.Holds, Acceptable, Decode;
      LeanWaits();
      WFPhase(Abs(), Seen());
      SeenIsAtHand();
      LenRun(c, last, Seen(), Pos(), Out(), |Out()| + 1);
      HoldIsAtHand();
      MoreIsShort(LENS, c.ll, AtHand());
    }

    /** Do what the entry of a decoded literal/length symbol asks for. */
    method EnterSymbol(e: Code, ghost d: Decoded, ghost n: int)
      requires mode == LEN && ahead == 0 && bits < 8 && |c.ll| <= 288 && Drops(LENS, c.ll, d, e, n)
      modifies `length, `extra, `mode
      ensures Fields() && Ph() == AfterLen(c, d) && n == Length(d) && !d.More? && mode in {LIT, TYPE, BAD, LENEXT}
    {
      LenEntry(c, d, e, n);
      hide Drops, AfterLen, Pow2;
      length := e.val;
      if e.op == 0 {
        mode := LIT;
      } else if e.op / 32 % 2 == 1 {
        mode := TYPE;
      } else if e.op / 64 % 2 == 1 {
        mode := BAD;
      } else {
        extra, mode := e.op % 16, LENEXT;
      }
    }

    /** One literal/length symbol. */
    method StepLen() returns (stop: bool)
      requires Core() && CodeTables() && mode == LEN
      modifies `nextIn, `hold, `bits, `mode, `length, `extra
      ensures Core() && Moved(old(Abs()), stop) && mode in {LEN, LIT, TYPE, BAD, LENEXT}
    {
      hide Lean, LeanAt, Step, Leads, Goes, WF, PhaseOK, Moved, ByteBits, Num, Pow2, BB.Holds, TableOK, Acceptable,
           Decode, Thrifty, Drops, AfterLen, Abs, Ph, ModeFields, Pos, Out, Src, S, Taken, Lim,
           BitFields, Buffer;
      ghost var c0, d, p := Abs(), Decode(c.ll, Ahead()), Pos();
      AbsIs();
      AtLen();
      ghost var c1 := Cfg(AfterLen(c, d), last, p + Length(d), Out());
      assert !d.More? ==> Goes(c0, S(), Lim(), c1);
      var ok, e := NextSymbol(LENS, c.ll, lencode, lenStart, lenEnd, lenbits);
      if !ok {
        AbsIs();
        AnyBits();
        Waiting(c0);
        return true;
      }
      EnterSymbol(e, d, Pos() - p);
      GoingTo(c0, c1);
      return false;
    }

    lemma {:induction false} AtLenExt()
      requires Core() && mode == LENEXT
      ensures bits < 8 && extra <= 5 && ahead == 0 && length + Pow2(extra) <= 259
      ensures Pos() + extra > |S()| ==> Step(Abs(), S(), |Out()| + 1).None? && Step(Abs(), S(), Lim()).None?
      ensures Pos() + extra <= |S()| ==>
        Goes(Abs(), S(), Lim(), Cfg(Dist(c, length + Num(S(), Pos(), extra)), last, Pos() + extra, Out()))
    {
      hide Lean, LeanAt, Step, Leads, Goes, WF, ByteBits, Num, Pow2, BB.Holds,
           Pos, Out, Src, S, Taken, Lim;
      LenExtRun(c, length, extra, last, S(), Pos(), Out(), Lim());
      LenExtRun(c, length, extra, last, S(), Pos(), Out(), |Out()| + 1);
      if bits >= 8 { LenExtWaits(); }
    }

    lemma {:induction false} LenExtWaits()
      requires Core() && mode == LENEXT
      ensures bits < 8
    {
      hide Lean, LeanAt, Step, Leads, Goes, WF, ByteBits, Num, Pow2, BB.Holds;
      if bits >= 8 {
        LeanWaits();
        SeenIsAtHand();
        LenExtRun(c, length, extra, last, Seen(), Pos(), Out(), |Out()| + 1);
      }
    }

    /** The extra bits of a length. */
    method StepLenExt() returns (stop: bool)
      requires Core() && mode == LENEXT
      modifies `nextIn, `hold, `bits, `mode, `length
      ensures Core() && Moved(old(Abs()), stop) && mode in {LENEXT, DIST}
    {
      hide Lean, LeanAt, Step, Leads, Goes, WF, PhaseOK, Moved, ByteBits, Num, Pow2, BB.Holds, Abs, Pos, Out, Src, S,
           Taken, Lim, Ph, ModeFields, BitFields, Buffer;
      ghost var c0, p := Abs(), Pos();
      AbsIs();
      AtLenExt();
      ghost var n := if p + extra <= |S()| then length + Num(S(), p, extra) else 0;
      ghost var c1 := Cfg(Dist(c, n), last, p + extra, Out());
      assert p + extra <= |S()| ==> Goes(c0, S(), Lim(), c1);
      var ok, v := TakeBits(extra);
      if !ok {
        AbsIs();
        AnyBits();
        Waiting(c0);
        return true;
      }
      EnterLength(v);
      GoingTo(c0, c1);
      return false;
    }

    method EnterLength(v: nat)
      requires mode == LENEXT && ahead == 0 && length + v <= 258
      modifies `mode, `length
      ensures Fields() && mode == DIST && Ph() == Dist(c, old(length) + v)
    {
      length, mode := length + v, DIST;
    }

    lemma {:induction false} AtDist()
      requires Core() && mode == DIST
      ensures Acceptable(DISTS, c.dl) && |c.dl| <= 32 && bits < 23 && Thrifty(c.dl) && ahead == 0 && length <= 258
      ensures var d := Decode(c.dl, Ahead());
        && (d.More? ==> Step(Abs(), S(), |Out()| + 1).None? && Step(Abs(), S(), Lim()).None?)
        && (d.Found? ==> 1 <= d.n && Pos() + d.n <= |S()|)
        && (!d.More? ==> Goes(Abs(), S(), Lim(), Cfg(AfterDist(c, length, d), last, Pos() + Length(d), Out())))
    {
      hide Lean, LeanAt, Step, Leads, Goes, WF, ByteBits, Num, Pow2, BB.Holds, Acceptable, Decode,
           Pos, Out, Src, S, Taken, Lim;
      WFPhase(Abs(), S());
      DistRun(c, length, last, S(), Pos(), Out(), Lim());
      DistRun(c, length, last, S(), Pos(), Out(), |Out()| + 1);
      DecodeUses(DISTS, c.dl, Ahead());
      if bits >= 8 { DistWaits(); }
    }

    lemma {:induction false} DistWaits()
      requires Core() && mode == DIST && bits >= 8
      ensures Decode(c.dl, AtHand()).More? && bits < MAXBITS
    {
      hide Lean, LeanAt, Step, Leads, Goes, WF, ByteBits, BB.Holds, Acceptable, Decode;
      LeanWaits();
      WFPhase(Abs(), Seen());
      SeenIsAtHand();
      DistRun(c, length, last, Seen(), Pos(), Out(), |Out()| + 1);
      HoldIsAtHand();
      MoreIsShort(DISTS, c.dl, AtHand());
    }

    /** Do what the entry of a decoded distance symbol asks for. */
    method EnterDistance(e: Code, ghost d: Decoded, ghost n: int)
      requires mode == DIST && ahead == 0 && bits < 8 && length <= 258 && |c.dl| <= 32 && Drops(DISTS, c.dl, d, e, n)
      modifies `offset, `extra, `mode
      ensures Fields() && Ph() == AfterDist(c, length, d) && n == Length(d) && !d.More? && mode in {DISTEXT, BAD}
    {
      DistEntry(c, length, d, e, n);
      hide Drops, AfterDist, Pow2;
      if e.op / 64 % 2 == 1 {
        mode := BAD;
      } else {
        offset, extra, mode := e.val, e.op % 16, DISTEXT;
      }
    }

    /** One distance symbol. */
    method StepDist() returns (stop: bool)
      requires Core() && CodeTables() && mode == DIST
      modifies `nextIn, `hold, `bits, `mode, `offset, `extra
      ensures Core() && Moved(old(Abs()), stop) && mode in {DIST, DISTEXT, BAD}
    {
      hide Lean, LeanAt, Step, Leads, Goes, WF, PhaseOK, Moved, ByteBits, Num, Pow2, BB.Holds, TableOK, Acceptable,
           Decode, Thrifty, Drops, AfterDist, Abs, Ph, ModeFields, Pos, Out, Src, S, Taken, Lim,
           BitFields, Buffer;
      ghost var c0, d, p := Abs(), Decode(c.dl, Ahead()), Pos();
      AbsIs();
      AtDist();
      ghost var c1 := Cfg(AfterDist(c, length, d), last, p + Length(d), Out());
      assert !d.More? ==> Goes(c0, S(), Lim(), c1);
      var ok, e := NextSymbol(DISTS, c.dl, distcode, distStart, distEnd, distbits);
      if !ok {
        AbsIs();
        AnyBits();
        Waiting(c0);
        return true;
      }
      EnterDistance(e, d, Pos() - p);
      GoingTo(c0, c1);
      return false;
    }

    lemma {:induction false} AtDistExt()
      requires Core() && mode == DISTEXT
      ensures (bits < 8 || bits < extra) && extra <= 13 && ahead == 0 && length <= 258 && offset + Pow2(extra) <= 32769
      ensures Pos() + extra > |S()| ==> Step(Abs(), S(), |Out()| + 1).None? && Step(Abs(), S(), Lim()).None?
      ensures Pos() + extra <= |S()| ==>
        var o := offset + Num(S(), Pos(), extra);
        Goes(Abs(), S(), Lim(), Cfg(if o > |Out()| then Bad(0) else Match(c, length, o), last, Pos() + extra, Out()))
    {
      hide Lean, LeanAt, CodesOK, Path, Step, Leads, Goes, WF, ByteBits, Num, Pow2, BB.Holds;
      DistExtRun(c, length, offset, extra, last, S(), Pos(), Out(), Lim());
      DistExtRun(c, length, offset, extra, last, S(), Pos(), Out(), |Out()| + 1);
      LeanDistExt();
    }

    lemma {:induction false} LeanDistExt()
      requires Core() && mode == DISTEXT
      ensures bits < 8 || bits < extra
    {
      hide Lean, LeanAt, CodesOK, Path, Step, Leads, Goes, WF, ByteBits, Num, Pow2, BB.Holds;
      if bits >= 8 {
        LeanWaits();
        SeenIsAtHand();
        DistExtRun(c, length, offset, extra, last, Seen(), Pos(), Out(), |Out()| + 1);
      }
    }

    /** The distance is complete: does it reach back too far? */
    method EnterOffset(v: nat)
      requires Shape() && Kept() && mode == DISTEXT && ahead == 0 && bits < 8 && length <= 258 && offset + v <= WSIZE
      modifies `mode, `offset
      ensures Fields() && mode in {MATCH, BAD}
      ensures var o := old(offset) + v; Ph() == if o > |Out()| then Bad(0) else Match(c, length, o)
    {
      hide WindowOK;
      TooFar(window[..], wsize, whave, write, hist, offset + v, nextOut);
      offset := offset + v;
      mode := if offset > whave + nextOut then BAD else MATCH;
    }

    /** The extra bits of a distance, and whether it reaches back too far. */
    method StepDistExt() returns (stop: bool)
      requires Core() && Kept() && mode == DISTEXT
      modifies `nextIn, `hold, `bits, `mode, `offset
      ensures Core() && Moved(old(Abs()), stop) && mode in {DISTEXT, MATCH, BAD}
    {
      hide Lean, LeanAt, Step, Leads, Goes, WF, PhaseOK, Moved, ByteBits, Num, Pow2, BB.Holds, Kept, Abs, Ph, Pos, Out,
           Src, S, Taken, Lim, ModeFields,
           BitFields, Buffer;
      ghost var c0, p := Abs(), Pos();
      AbsIs();
      AtDistExt();
      ghost var o := if p + extra <= |S()| then offset + Num(S(), p, extra) else 0;
      ghost var c1 := Cfg(if o > |Out()| then Bad(0) else Match(c, length, o), last, p + extra, Out());
      assert p + extra <= |S()| ==> Goes(c0, S(), Lim(), c1);
      var ok, v := TakeBits(extra);
      if !ok {
        AbsIs();
        AnyBits();
        Waiting(c0);
        return true;
      }
      EnterOffset(v);
      GoingTo(c0, c1);
      return false;
    }

    // ---- Copying a match --------------------------------------------------------------------------

    /** The next n bytes read at from, in the window or in the output, are those that
        a match at distance dist yields when writing at put. */
    ghost predicate Feeds(put: nat, inWindow: bool, from: nat, n: nat, dist: nat)
      reads `output, `hist, window
    {
      && put + n <= output.Length && 1 <= dist <= |hist| + put
      && if inWindow then from + n <= window.Length && put + n <= dist
                          && window[from..from + n] == hist[|hist| + put - dist..|hist| + put - dist + n]
         else from + dist == put
    }

    /** The byte that is fed, and those behind it. */
    lemma {:induction false} FeedsNext(put: nat, inWindow: bool, from: nat, n: nat, dist: nat)
      requires n >= 1 && Feeds(put, inWindow, from, n, dist)
      ensures Feeds(put + 1, inWindow, from + 1, n - 1, dist)
      ensures inWindow ==> window[from] == hist[|hist| + put - dist]
    {
      if inWindow {
        var x, w := |hist| + put - dist, window[..];
        assert window[from..from + n] == hist[x..x + n];
        assert window[from] == window[from..from + n][0] && hist[x] == hist[x..x + n][0];
        assert window[from + 1..from + n] == window[from..from + n][1..] && hist[x + 1..x + n] == hist[x..x + n][1..];
      }
    }

    /** *put++ = *from++ */
    method CopyByte(put: nat, inWindow: bool, from: nat, ghost n: nat, ghost dist: nat, ghost h: seq<byte>,
                    ghost k: nat)
      requires output != window && n >= 1 && Feeds(put, inWindow, from, n, dist) && 1 <= dist <= |h|
      requires hist + output[..put] == R.CopyMatch(h, k, dist)
      modifies output
      ensures Feeds(put + 1, inWindow, from + 1, n - 1, dist)
      ensures hist + output[..put + 1] == R.CopyMatch(h, k + 1, dist)
    {
      hide R.CopyMatch;
      CopySnoc(h, k, dist);
      FeedsNext(put, inWindow, from, n, dist);
      ghost var o := output[..put];
      output[put] := if inWindow then window[from] else output[from];
      assert output[..put + 1] == o + [output[put]];
      assert (hist + o) + [output[put]] == hist + (o + [output[put]]);
    }

    /** n bytes of a match, one by one. */
    method CopyBytes(put: nat, inWindow: bool, from: nat, n: nat, ghost m: nat, ghost dist: nat, ghost h: seq<byte>,
                     ghost k: nat)
      requires output != window && n <= m && put + m <= output.Length && Feeds(put, inWindow, from, m, dist) &&
               1 <= dist <= |h|
      requires hist + output[..put] == R.CopyMatch(h, k, dist)
      modifies output
      ensures Feeds(put + n, inWindow, from + n, m - n, dist)
      ensures hist + output[..put + n] == R.CopyMatch(h, k + n, dist)
    {
      hide R.CopyMatch, Feeds;
      var j := 0;
      while j < n
        invariant j <= n && put + j <= output.Length && Feeds(put + j, inWindow, from + j, m - j, dist)
        invariant hist + output[..put + j] == R.CopyMatch(h, k + j, dist)
      {
        CopyByte(put + j, inWindow, from + j, m - j, dist, h, k + j);
        j := j + 1;
      }
    }

    /** How much of a match can be copied at once, and from where. */
    method MatchSource() returns (inWindow: bool, from: nat, copy: nat)
      requires Shape() && Kept() && nextOut < output.Length
      requires 1 <= offset <= |Out()| && offset <= WSIZE && 1 <= length
      ensures 1 <= copy <= length && nextOut + copy <= output.Length
      ensures Feeds(nextOut, inWindow, from, copy, offset)
    {
      hide WindowOK, FixedOK;
      copy := nextOut;
      ghost var whole := 0;
      if offset > copy {
        copy := offset - copy;
        Chunk(window[..], wsize, whave, write, hist, copy);
        if copy > write {
          copy := copy - write;
          from := wsize - copy;
        } else {
          from := write - copy;
        }
        whole := copy;
        if copy > length { copy := length; }
        inWindow := true;
      } else {
        inWindow, from, copy := false, nextOut - offset, length;
      }
      if copy > output.Length - nextOut { copy := output.Length - nextOut; }
      if inWindow { PartFeeds(nextOut, from, whole, copy, offset); }
    }

    /** Part of a stretch of the window that holds what a match refers to. */
    lemma {:induction false} PartFeeds(put: nat, from: nat, m: nat, n: nat, dist: nat)
      requires n <= m && put + n <= output.Length && 1 <= dist <= |hist| + put && put + m <= dist
      requires from + m <= window.Length
      requires window[from..from + m] == hist[|hist| + put - dist..|hist| + put - dist + m]
      ensures Feeds(put, true, from, n, dist)
    {
      var x := |hist| + put - dist;
      ghost var w := window[..];
      FirstPart(w, from, m, n);
      FirstPart(hist, x, m, n);
      assert window[from..from + m] == w[from..from + m] && window[from..from + n] == w[from..from + n];
    }

    lemma {:induction false} AtMatch(n: nat)
      requires Core() && mode == MATCH
      ensures 1 <= length && 1 <= offset <= |Out()| && offset <= WSIZE && ModeFields()
      ensures nextOut == output.Length ==> Step(Abs(), S(), Lim()).None?
      ensures 1 <= n <= length && nextOut + n <= output.Length ==>
        Leads(Abs(), S(), Lim(), Cfg(if n == length then Len(c) else Match(c, length - n, offset), last, Pos(),
                                     R.CopyMatch(Out(), n, offset)))
      ensures bits < 8 && Step(Abs(), S(), |Out()| + 1).Some?
    {
      hide Lean, LeanAt, Path, WF, ByteBits, Num, Pow2, BB.Holds, CodesOK, R.CopyMatch;
      WFPhase(Abs(), S());
      if 1 <= n <= length && nextOut + n <= output.Length {
        MatchRun(c, length, offset, last, S(), Pos(), Out(), Lim(), n);
      }
      if bits >= 8 { LeanWaits(); }
    }

    /** As much of a match as comes from one place and has room. */
    method StepMatch() returns (stop: bool)
      requires Core() && Kept() && mode == MATCH
      modifies `nextOut, `mode, `length, output
      ensures Core() && Moved(old(Abs()), stop) && mode in {MATCH, LEN}
    {
      hide Lean, LeanAt, Step, Leads, Goes, WF, PhaseOK, Moved, ByteBits, Num, Pow2, BB.Holds, Kept, R.CopyMatch,
           Feeds, Shape, Abs, Pos, Out, Src, S, Taken, Lim, Ph, ModeFields, BitFields, Buffer;
      ghost var c0 := Abs();
      InRange();
      AtMatch(0);
      if nextOut == output.Length {
        Stopping(c0);
        return true;
      }
      var inWindow, from, copy := MatchSource();
      AtMatch(copy);
      ghost var c1 := Cfg(if copy == length then Len(c) else Match(c, length - copy, offset), last, Pos(),
                          R.CopyMatch(Out(), copy, offset));
      CopyPart(inWindow, from, copy);
      LedTo(c0, c1);
      return false;
    }

    /** Copy n bytes of the match, and go on behind them. */
    method CopyPart(inWindow: bool, from: nat, n: nat)
      requires Shape() && 1 <= n <= length && nextOut + n <= output.Length && 1 <= offset <= |Out()|
      requires Feeds(nextOut, inWindow, from, n, offset) && mode == MATCH && ModeFields()
      modifies `nextOut, `length, `mode, output
      ensures Shape() && Out() == R.CopyMatch(old(Out()), n, offset) && Fields() && mode in {MATCH, LEN}
      ensures Ph() == if n == old(length) then Len(c) else Match(c, old(length) - n, offset)
    {
      hide R.CopyMatch, Feeds, Ph, ModeFields, BitFields;
      ghost var h := Out();
      EmptyCopy(h, offset);
      CopyBytes(nextOut, inWindow, from, n, n, offset, h, 0);
      nextOut := nextOut + n;
      Shorten(n);
    }

    method Shorten(n: nat)
      requires mode == MATCH && ModeFields() && n <= length
      modifies `length, `mode
      ensures Fields() && mode in {MATCH, LEN}
      ensures Ph() == if n == old(length) then Len(c) else Match(c, old(length) - n, offset)
    {
      length := length - n;
      if length == 0 { mode := LEN; }
    }

    lemma {:induction false} AtLit()
      requires Core() && mode == LIT
      ensures bits < 8 && Step(Abs(), S(), |Out()| + 1).Some?
      ensures nextOut == output.Length ==> Step(Abs(), S(), Lim()).None?
      ensures nextOut < output.Length ==> Goes(Abs(), S(), Lim(), Cfg(Len(c), last, Pos(), Out() + [length]))
    {
      hide Lean, LeanAt, Step, Leads, Goes, WF, ByteBits, Num, Pow2, BB.Holds, CodesOK;
      LitRun(c, length, last, S(), Pos(), Out(), Lim());
      LitRun(c, length, last, S(), Pos(), Out(), |Out()| + 1);
      if bits >= 8 {
        LeanWaits();
        LitRun(c, length, last, Seen(), Pos(), Out(), |Out()| + 1);
      }
    }

    method StepLit() returns (stop: bool)
      requires Core() && mode == LIT
      modifies `nextOut, `mode, output
      ensures Core() && Moved(old(Abs()), stop) && mode in {LIT, LEN}
    {
      hide Lean, LeanAt, Step, Leads, Goes, WF, PhaseOK, Moved, ByteBits, Num, Pow2, BB.Holds;
      ghost var c0 := Abs();
      AtLit();
      if nextOut == output.Length {
        Stopping(c0);
        return true;
      }
      ghost var o := Out();
      output[nextOut] := length;
      nextOut, mode := nextOut + 1, LEN;
      assert Out() == o + [length];
      Going(c0);
      return false;
    }

    // ---- The window ---------------------------------------------------------------------------

    /** updatewindow(): take the output of this call into the window. */
    method UpdateWindow()
      requires Shape() && WindowOK(window[..], wsize, whave, write, hist)
      modifies window, `wsize, `whave, `write
      ensures wsize == WSIZE && WindowOK(window[..], wsize, whave, write, Out())
    {
      hide WindowOK;
      StartWindow();
      if nextOut >= wsize {
        CopyToWindow(0, nextOut - wsize, wsize);
        Refilled(window[..], hist, output[..nextOut]);
        write, whave := 0, wsize;
      } else {
        AppendToWindow();
      }
    }

    /** zmemcpy(window + to, output + from, n) */
    method CopyToWindow(to: nat, from: nat, n: nat)
      requires output != window && to + n <= window.Length && from + n <= output.Length
      modifies window
      ensures window[to..to + n] == output[from..from + n]
      ensures window[..to] == old(window[..to]) && window[to + n..] == old(window[to + n..])
    {
      forall i | 0 <= i < n { window[to + i] := output[from + i]; }
    }

    /** Less than a window of output goes behind the last, wrapping at the end. */
    method AppendToWindow()
      requires Shape() && wsize == WSIZE && nextOut < wsize && WindowOK(window[..], wsize, whave, write, hist)
      modifies window, `whave, `write
      ensures WindowOK(window[..], wsize, whave, write, Out())
    {
      hide WindowOK;
      ghost var win, o := window[..], output[..nextOut];
      WindowNumbers(win, wsize, whave, write, hist);
      var copy := nextOut;
      var dist := Min(wsize - write, copy);
      CopyToWindow(write, nextOut - copy, dist);
      ghost var mid := window[..];
      copy := copy - dist;
      if copy != 0 { CopyToWindow(0, nextOut - copy, copy); }
      Spliced(win, mid, window[..], write, o, dist);
      Extended(win, whave, write, hist, window[..], o);
      WriteAt(copy, dist);
    }

    /** The window is empty at first. */
    method StartWindow()
      requires WindowOK(window[..], wsize, whave, write, hist)
      modifies `wsize, `whave, `write
      ensures wsize == WSIZE && WindowOK(window[..], wsize, whave, write, hist)
    {
      if wsize == 0 { wsize, write, whave := WSIZE, 0, 0; }
    }

    method WriteAt(copy: nat, dist: nat)
      modifies `whave, `write
      ensures write == if copy != 0 then copy else if old(write) + dist == wsize then 0 else old(write) + dist
      ensures whave == if copy != 0 then wsize else if old(whave) < wsize then old(whave) + dist else old(whave)
    {
      if copy != 0 {
        write, whave := copy, wsize;
      } else {
        write := write + dist;
        if write == wsize { write := 0; }
        if whave < wsize { whave := whave + dist; }
      }
    }

    // ---- The fast path --------------------------------------------------------------------------

    /** The accumulator of inflate_fast, which keeps it in local variables. */
    ghost predicate At(inp: nat, hold: nat, bits: nat)
      reads `past, `input
    {
      inp <= |input| && bits <= 30 && BB.Holds(Src(), |past| + inp, hold, bits)
    }

    ghost function PosAt(inp: nat, bits: nat): int
      reads `past
    {
      8 * (|past| + inp) - bits
    }

    method PullAt(inp: nat, hold: nat, bits: nat) returns (i: nat, h: nat, b: nat)
      requires At(inp, hold, bits) && inp < |input| && bits <= 22
      ensures At(i, h, b) && i == inp + 1 && b == bits + 8
    {
      hide BB.Holds, Shl;
      BB.Pulled(Src(), |past| + inp, hold, bits);
      assert Src()[|past| + inp] == input[inp];
      return inp + 1, hold + Shl(input[inp], bits), bits + 8;
    }

    /** At least 15 bits, for any code. */
    method Refill(inp: nat, hold: nat, bits: nat) returns (i: nat, h: nat, b: nat)
      requires At(inp, hold, bits) && (bits < 15 ==> inp + 2 <= |input|)
      ensures At(i, h, b) && PosAt(i, b) == PosAt(inp, bits) && b >= 15
      ensures bits < 15 ==> i == inp + 2
      ensures bits >= 15 ==> i == inp
    {
      hide BB.Holds;
      i, h, b := inp, hold, bits;
      if b < 15 {
        i, h, b := PullAt(i, h, b);
        i, h, b := PullAt(i, h, b);
      }
    }

    method TakeAt(inp: nat, hold: nat, bits: nat, n: nat) returns (v: nat, h: nat, b: nat)
      requires At(inp, hold, bits) && n <= bits
      ensures At(inp, h, b) && b == bits - n
      ensures 0 <= PosAt(inp, bits) && PosAt(inp, bits) + n == PosAt(inp, b) <= |S()|
      ensures v == Low(hold, n) == Num(S(), PosAt(inp, bits), n) < Pow2(n) && h == Shr(hold, n)
    {
      BB.LowBits(Src(), |past| + inp, hold, bits, n);
      BB.Dropped(Src(), |past| + inp, hold, bits, n);
      Split(hold, n);
      return Low(hold, n), Shr(hold, n), bits - n;
    }

    /** Decode a symbol from the 15 bits or more at hand, by the root table and at
        most one link. */
    method FastSymbol(ghost kind: Kind, ghost l: Lens, tab: array<Code>, start: nat, end: nat, root: nat,
                      inp: nat, hold: nat, bits: nat) returns (e: Code, h: nat, b: nat)
      requires At(inp, hold, bits) && bits >= 15
      requires start <= end <= tab.Length && TableOK(kind, l, tab[start..end], root)
      ensures |l| <= Limit(kind) && At(inp, h, b) && 0 <= PosAt(inp, bits) < PosAt(inp, b) <= |S()|
      ensures PosAt(inp, b) <= PosAt(inp, bits) + MAXBITS
      ensures Drops(kind, l, Decode(l, S()[PosAt(inp, bits)..]), e, PosAt(inp, b) - PosAt(inp, bits))
    {
      hide Decode, TableOK, ByteBits, Low, Shr, LE, BB.Holds, Tells, Drops, Acceptable;
      HoldIs(inp, hold, bits);
      ghost var t, p := tab[start..end], PosAt(inp, bits);
      ghost var w, v := S()[p..p + bits], S()[p..];
      TableFacts(kind, l, t, root);
      RootTells(kind, l, t, root, w, v);
      e := tab[start + Low(hold, root)];
      var dropped;
      dropped, h, b := TakeAt(inp, hold, bits, e.bits);
      if IsLink(e) {
        assert LinkTells(kind, l, t, root, e, w, v);
        e := tab[start + e.val + Low(h, e.op)];
        DropsTold(kind, l, Code(e.op, root + e.bits, e.val), w, v);
        dropped, h, b := TakeAt(inp, h, b, e.bits);
      } else {
        DropsTold(kind, l, e, w, v);
      }
    }

    lemma {:induction false} HoldIs(inp: nat, hold: nat, bits: nat)
      requires At(inp, hold, bits)
      ensures 0 <= PosAt(inp, bits) && PosAt(inp, bits) + bits <= |S()|
      ensures hold == LE(S()[PosAt(inp, bits)..PosAt(inp, bits) + bits])
    {}

    ghost predicate Fast(inp: nat, hold: nat, bits: nat, put: nat)
      reads this
    {
      Shape() && At(inp, hold, bits) && put <= output.Length
    }

    /** Where the machine is when inflate_fast holds these values. */
    ghost function FastCfg(ph: Phase, inp: nat, hold: nat, bits: nat, put: nat): Cfg
      reads this, output
      requires Fast(inp, hold, bits, put)
    {
      Cfg(ph, last, PosAt(inp, bits), hist + output[..put])
    }

    /** The length of a match, with its extra bits. */
    method FastLength(inp: nat, hold: nat, bits: nat, e: Code) returns (i: nat, h: nat, b: nat, len: nat)
      requires At(inp, hold, bits) && e.op % 16 <= 5 && e.val + Pow2(e.op % 16) <= 259
      requires bits < e.op % 16 ==> inp < |input|
      ensures At(i, h, b) && 0 <= PosAt(inp, bits) && PosAt(i, b) == PosAt(inp, bits) + e.op % 16 <= |S()|
      ensures len == e.val + Num(S(), PosAt(inp, bits), e.op % 16) <= 258 && (i == inp || b < 8)
    {
      hide BB.Holds, Num, ByteBits;
      HoldIs(inp, hold, bits);
      i, h, b, len := inp, hold, bits, e.val;
      var op := e.op % 16;
      if op != 0 {
        if b < op { i, h, b := PullAt(i, h, b); }
        var v;
        v, h, b := TakeAt(i, h, b, op);
        len := len + v;
      } else {
        NumOfNone(S(), PosAt(inp, bits));
      }
    }

    /** The distance of a match, with its extra bits. */
    method FastDistance(inp: nat, hold: nat, bits: nat, e: Code) returns (i: nat, h: nat, b: nat, dist: nat)
      requires At(inp, hold, bits) && e.op % 16 <= 13 && e.val + Pow2(e.op % 16) <= 32769
      requires bits < e.op % 16 ==> inp < |input|
      requires bits + 8 < e.op % 16 ==> inp + 1 < |input|
      ensures At(i, h, b) && 0 <= PosAt(inp, bits) && PosAt(i, b) == PosAt(inp, bits) + e.op % 16 <= |S()|
      ensures dist == e.val + Num(S(), PosAt(inp, bits), e.op % 16) <= WSIZE && (i == inp || b < 8)
    {
      hide BB.Holds, Num, ByteBits;
      i, h, b, dist := inp, hold, bits, e.val;
      var op := e.op % 16;
      if b < op {
        i, h, b := PullAt(i, h, b);
        if b < op { i, h, b := PullAt(i, h, b); }
      }
      var v;
      v, h, b := TakeAt(i, h, b, op);
      dist := dist + v;
    }

    /** Three bytes of a match: one turn of the unrolled copy. */
    method CopyThree(put: nat, inWindow: bool, from: nat, ghost n: nat, ghost dist: nat, ghost h: seq<byte>,
                     ghost k: nat)
      requires output != window && n >= 3 && put + n <= output.Length
      requires Feeds(put, inWindow, from, n, dist) && 1 <= dist <= |h|
      requires hist + output[..put] == R.CopyMatch(h, k, dist)
      modifies output
      ensures Feeds(put + 3, inWindow, from + 3, n - 3, dist)
      ensures hist + output[..put + 3] == R.CopyMatch(h, k + 3, dist)
    {
      hide R.CopyMatch, Feeds;
      CopyByte(put, inWindow, from, n, dist, h, k);
      CopyByte(put + 1, inWindow, from + 1, n - 1, dist, h, k + 1);
      CopyByte(put + 2, inWindow, from + 2, n - 2, dist, h, k + 2);
    }

    /** The rest of a match, three bytes at a time. */
    method CopyUnrolled(put: nat, inWindow: bool, from: nat, length: nat, ghost dist: nat, ghost h: seq<byte>,
                        ghost k: nat)
      requires output != window && put + length <= output.Length
      requires Feeds(put, inWindow, from, length, dist) && 1 <= dist <= |h|
      requires hist + output[..put] == R.CopyMatch(h, k, dist)
      modifies output
      ensures hist + output[..put + length] == R.CopyMatch(h, k + length, dist)
    {
      hide R.CopyMatch, Feeds;
      var len: nat, out: nat, at: nat := length, put, from;
      while len > 2
        invariant len <= length && out == put + (length - len) && at == from + (length - len)
        invariant Feeds(out, inWindow, at, len, dist)
        invariant hist + output[..out] == R.CopyMatch(h, k + (length - len), dist)
      {
        CopyThree(out, inWindow, at, len, dist, h, k + (length - len));
        len, out, at := len - 3, out + 3, at + 3;
      }
      if len != 0 {
        CopyByte(out, inWindow, at, len, dist, h, k + (length - len));
        if len > 1 { CopyByte(out + 1, inWindow, at + 1, len - 1, dist, h, k + (length - len) + 1); }
      }
    }

    /** op bytes from the window and the rest from the output, or all from the window.
        What is left to copy, and from where. */
    method CopyWindowPart(put: nat, length: nat, from: nat, op: nat, dist: nat, ghost h: seq<byte>)
      returns (out: nat, len: nat, inWindow: bool, at: nat)
      requires output != window && put + length <= output.Length && 1 <= op && dist == put + op <= |hist| + put
      requires from + op <= window.Length && window[from..from + op] == hist[|hist| - op..]
      requires h == hist + output[..put]
      modifies output
      ensures put <= out && out + len == put + length && Feeds(out, inWindow, at, len, dist)
      ensures hist + output[..out] == R.CopyMatch(h, out - put, dist)
    {
      hide R.CopyMatch, Feeds;
      EmptyCopy(h, dist);
      out, len, inWindow, at := put, length, true, from;
      PartFeeds(put, from, op, Min(op, length), dist);
      if op < len {
        len := len - op;
        CopyBytes(out, true, from, op, op, dist, h, 0);
        out := out + op;
        inWindow, at := false, out - dist;
        FromOutput(out, at, len, dist);
      }
    }

    lemma {:induction false} FromOutput(put: nat, from: nat, n: nat, dist: nat)
      requires put + n <= output.Length && 1 <= dist && from + dist == put
      ensures Feeds(put, false, from, n, dist)
    {}

    /** As above when the bytes wrap around the end of the window. */
    method CopyWrapped(put: nat, length: nat, dist: nat, ghost h: seq<byte>)
      returns (out: nat, len: nat, inWindow: bool, at: nat)
      requires Shape() && WindowOK(window[..], wsize, whave, write, hist) && put + length <= output.Length
      requires put + write < dist <= put + whave && h == hist + output[..put] && write > 0
      modifies output
      ensures put <= out && out + len == put + length && Feeds(out, inWindow, at, len, dist)
      ensures hist + output[..out] == R.CopyMatch(h, out - put, dist)
    {
      hide R.CopyMatch, Feeds, WindowOK;
      WindowNumbers(window[..], wsize, whave, write, hist);
      Chunk(window[..], wsize, whave, write, hist, dist - put);
      EmptyCopy(h, dist);
      var op := dist - put - write;
      out, len, inWindow, at := put, length, true, wsize - op;
      PartFeeds(put, at, op, Min(op, length), dist);
      if op < len {
        len := len - op;
        CopyBytes(out, true, at, op, op, dist, h, 0);
        out := out + op;
        at := 0;
        PartFeeds(out, 0, write, Min(write, len), dist);
        if write < len {
          op := write;
          len := len - op;
          CopyBytes(out, true, 0, op, op, dist, h, out - put);
          out := out + op;
          inWindow, at := false, out - dist;
          FromOutput(out, at, len, dist);
        }
      }
    }

    /** Copy a match, from the window, from the output, or from one and then the other. */
    method FastCopy(put: nat, length: nat, dist: nat) returns (out: nat)
      requires Shape() && WindowOK(window[..], wsize, whave, write, hist) && put + length <= output.Length
      requires 1 <= dist <= put + whave && 3 <= length
      modifies output
      ensures out == put + length && whave <= |hist|
      ensures hist + output[..out] == R.CopyMatch(hist + old(output[..put]), length, dist)
    {
      hide R.CopyMatch, Feeds, WindowOK;
      WindowNumbers(window[..], wsize, whave, write, hist);
      ghost var h := hist + output[..put];
      if dist > put {
        FastWindowCopy(put, length, dist, h);
      } else {
        EmptyCopy(h, dist);
        FromOutput(put, put - dist, length, dist);
        CopyThree(put, false, put - dist, length, dist, h, 0);
        CopyUnrolled(put + 3, false, put - dist + 3, length - 3, dist, h, 3);
      }
      out := put + length;
    }

    /** A match that begins in the window: contiguous, at its end, or wrapped around it. */
    method FastWindowCopy(put: nat, length: nat, dist: nat, ghost h: seq<byte>)
      requires Shape() && WindowOK(window[..], wsize, whave, write, hist) && put + length <= output.Length
      requires put < dist <= put + whave && h == hist + output[..put]
      modifies output
      ensures 1 <= dist <= |h| && hist + output[..put + length] == R.CopyMatch(h, length, dist)
    {
      hide R.CopyMatch, Feeds, WindowOK;
      WindowNumbers(window[..], wsize, whave, write, hist);
      var out, len, inWindow, at;
      var op := dist - put;
      Chunk(window[..], wsize, whave, write, hist, op);
      if write == 0 {
        assert window[wsize - op..wsize - op + op] == window[..][WSIZE - (op - write)..] == hist[|hist| - op..];
        out, len, inWindow, at := CopyWindowPart(put, length, wsize - op, op, dist, h);
      } else if write < op {
        out, len, inWindow, at := CopyWrapped(put, length, dist, h);
      } else {
        out, len, inWindow, at := CopyWindowPart(put, length, write - op, op, dist, h);
      }
      CopyUnrolled(out, inWindow, at, len, dist, h, out - put);
    }

    /** The rest of a length/distance pair, behind the length code: at most 33 bits. */
    method FastPair(inp: nat, hold: nat, bits: nat, put: nat, e: Code, ghost most: nat)
      returns (i: nat, h: nat, b: nat, out: nat, m: Mode)
      requires Fast(inp, hold, bits, put) && CodeTables() && Kept() && put + 258 <= output.Length
      requires inp <= most <= |input| && PosAt(inp, bits) + 33 <= 8 * (|past| + most)
      requires e.op % 16 <= 5 && e.val + Pow2(e.op % 16) <= 259 && 3 <= e.val
      requires WF(FastCfg(LenExt(c, e.val, e.op % 16), inp, hold, bits, put), S())
      modifies output
      ensures Fast(i, h, b, out) && out <= put + 258 && i <= most && m in {LEN, BAD}
      ensures Leads(old(FastCfg(LenExt(c, e.val, e.op % 16), inp, hold, bits, put)), S(), Lim(),
                    FastCfg(if m == LEN then Len(c) else Bad(0), i, h, b, out))
    {
      hide Leads, Goes, WF, PhaseOK, ByteBits, Num, Pow2, BB.Holds, TableOK, Acceptable, Decode, Drops,
           R.CopyMatch, WindowOK, FixedOK, S, Src, Lim;
      ghost var c0 := FastCfg(LenExt(c, e.val, e.op % 16), inp, hold, bits, put);
      var len, e2;
      i, h, b, len, e2 := FastDistanceCode(inp, hold, bits, put, e, most);
      out, m := put, BAD;
      if e2.op / 16 % 2 == 1 {
        ghost var c1 := FastCfg(DistExt(c, len, e2.val, e2.op % 16), i, h, b, put);
        LeadsFacts(c0, S(), Lim(), c1);
        i, h, b, out, m := FastMatch(i, h, b, put, len, e2, most);
        Twice(c0, S(), Lim(), c1, FastCfg(if m == LEN then Len(c) else Bad(0), i, h, b, out));
      }
    }

    /** The first part of it: the extra bits of the length, and the distance code. */
    method FastDistanceCode(inp: nat, hold: nat, bits: nat, put: nat, e: Code, ghost most: nat)
      returns (i: nat, h: nat, b: nat, len: nat, e2: Code)
      requires Fast(inp, hold, bits, put) && CodeTables()
      requires inp <= most <= |input| && PosAt(inp, bits) + 33 <= 8 * (|past| + most)
      requires e.op % 16 <= 5 && e.val + Pow2(e.op % 16) <= 259 && 3 <= e.val
      requires WF(FastCfg(LenExt(c, e.val, e.op % 16), inp, hold, bits, put), S())
      ensures Fast(i, h, b, put) && i <= most && 3 <= len <= 258 && PosAt(i, b) + 13 <= 8 * (|past| + most)
      ensures e2.op / 16 % 2 == 1 ==> e2.op % 16 <= 13 && e2.val + Pow2(e2.op % 16) <= 32769 && 1 <= e2.val
      ensures Leads(FastCfg(LenExt(c, e.val, e.op % 16), inp, hold, bits, put), S(), Lim(),
                    FastCfg(if e2.op / 16 % 2 == 1 then DistExt(c, len, e2.val, e2.op % 16) else Bad(0), i, h, b, put))
    {
      hide Leads, Goes, WF, PhaseOK, ByteBits, Num, Pow2, BB.Holds, TableOK, Acceptable, Decode, Drops, S, Src, Lim;
      ghost var c0 := FastCfg(LenExt(c, e.val, e.op % 16), inp, hold, bits, put);
      i, h, b, len := FastLength(inp, hold, bits, e);
      i, h, b := Refill(i, h, b);
      ghost var p := PosAt(i, b);
      e2, h, b := FastSymbol(DISTS, c.dl, distcode, distStart, distEnd, distbits, i, h, b);
      DistEntry(c, len, Decode(c.dl, S()[p..]), e2, PosAt(i, b) - p);
      ToDistance(c0, S(), Lim(), PosAt(i, b));
    }

    /** The rest of it, behind the distance code: at most 13 bits, and the copy. */
    method FastMatch(inp: nat, hold: nat, bits: nat, put: nat, len: nat, e: Code, ghost most: nat)
      returns (i: nat, h: nat, b: nat, out: nat, m: Mode)
      requires Fast(inp, hold, bits, put) && Kept() && put + 258 <= output.Length && 3 <= len <= 258
      requires inp <= most <= |input| && PosAt(inp, bits) + 13 <= 8 * (|past| + most)
      requires e.op % 16 <= 13 && e.val + Pow2(e.op % 16) <= 32769 && 1 <= e.val
      requires WF(FastCfg(DistExt(c, len, e.val, e.op % 16), inp, hold, bits, put), S())
      modifies output
      ensures Fast(i, h, b, out) && out <= put + 258 && i <= most && m in {LEN, BAD}
      ensures Leads(old(FastCfg(DistExt(c, len, e.val, e.op % 16), inp, hold, bits, put)), S(), Lim(),
                    FastCfg(if m == LEN then Len(c) else Bad(0), i, h, b, out))
    {
      hide Leads, Goes, WF, PhaseOK, ByteBits, Num, Pow2, BB.Holds, R.CopyMatch, WindowOK, FixedOK;
      ghost var c0 := FastCfg(DistExt(c, len, e.val, e.op % 16), inp, hold, bits, put);
      var dist;
      i, h, b, dist := FastDistance(inp, hold, bits, e);
      TooFar(window[..], wsize, whave, write, hist, dist, put);
      ToMatch(c0, S(), Lim());
      out, m := put, BAD;
      if dist <= put || dist - put <= whave {
        out := FastCopy(put, len, dist);
        m := LEN;
      }
    }

    /** One turn of the loop of inflate_fast: at most 6 bytes in and 258 out. */
    method FastTurn(inp: nat, hold: nat, bits: nat, put: nat) returns (i: nat, h: nat, b: nat, out: nat, m: Mode)
      requires Fast(inp, hold, bits, put) && CodeTables() && Kept()
      requires inp + 6 <= |input| && put + 258 <= output.Length
      requires WF(FastCfg(Len(c), inp, hold, bits, put), S())
      modifies output
      ensures Fast(i, h, b, out) && out <= put + 258 && i <= inp + 6 && m in {LEN, TYPE, BAD}
      ensures Leads(old(FastCfg(Len(c), inp, hold, bits, put)), S(), Lim(), FastCfg(FastPhase(m), i, h, b, out))
      ensures 0 <= PosAt(inp, bits) < PosAt(i, b) <= |S()|
      ensures PosAt(inp, bits) + Length(Decode(c.ll, S()[PosAt(inp, bits)..])) <= PosAt(i, b)
    {
      hide Leads, Goes, WF, PhaseOK, ByteBits, Num, Pow2, BB.Holds, TableOK, Acceptable, Decode, Drops,
           R.CopyMatch, WindowOK, FixedOK, Step, S, Src;
      HoldIs(inp, hold, bits);
      ghost var c0, o, d := FastCfg(Len(c), inp, hold, bits, put), output[..put], Decode(c.ll, S()[PosAt(inp, bits)..]);
      var e;
      i, h, b, e := FastLengthCode(inp, hold, bits, put);
      ghost var c1 := FastCfg(AfterLen(c, d), i, h, b, put);
      out := put;
      if e.op == 0 {
        ToLiteral(c0, S(), Lim(), e.val);
        output[put] := e.val;
        out, m := put + 1, LEN;
        assert hist + output[..out] == c0.out + [e.val];
      } else if e.op / 16 % 2 == 1 {
        i, h, b, out, m := FastPair(i, h, b, put, e, inp + 6);
        LeadsFacts(c1, S(), Lim(), FastCfg(FastPhase(m), i, h, b, out));
        Twice(c0, S(), Lim(), c1, FastCfg(FastPhase(m), i, h, b, out));
        HoldIs(i, h, b);
      } else {
        m := if e.op / 32 % 2 == 1 then TYPE else BAD;
      }
    }

    /** Its literal/length symbol. */
    method FastLengthCode(inp: nat, hold: nat, bits: nat, ghost put: nat)
      returns (i: nat, h: nat, b: nat, e: Code)
      requires Fast(inp, hold, bits, put) && CodeTables() && inp + 6 <= |input| && 0 <= PosAt(inp, bits) <= |S()|
      requires WF(FastCfg(Len(c), inp, hold, bits, put), S())
      ensures Fast(i, h, b, put) && inp <= i && PosAt(i, b) + 33 <= 8 * (|past| + inp + 6) && i <= inp + 6
      ensures PosAt(inp, bits) < PosAt(i, b) <= |S()|
      ensures var d := Decode(c.ll, S()[PosAt(inp, bits)..]);
        LenTold(c, d, e, PosAt(i, b) - PosAt(inp, bits)) && WF(FastCfg(AfterLen(c, d), i, h, b, put), S()) &&
        Leads(FastCfg(Len(c), inp, hold, bits, put), S(), Lim(), FastCfg(AfterLen(c, d), i, h, b, put))
    {
      hide Leads, Goes, WF, PhaseOK, ByteBits, Num, Pow2, BB.Holds, TableOK, Acceptable, Decode, Drops, Step, Lim;
      ghost var c0, d := FastCfg(Len(c), inp, hold, bits, put), Decode(c.ll, S()[PosAt(inp, bits)..]);
      i, h, b := Refill(inp, hold, bits);
      e, h, b := FastSymbol(LENS, c.ll, lencode, lenStart, lenEnd, lenbits, i, h, b);
      LenEntry(c, d, e, PosAt(i, b) - PosAt(inp, bits));
      AfterSymbol(c0, S(), Lim(), PosAt(i, b));
    }

    ghost function FastPhase(m: Mode): Phase
      reads `c
    {
      if m == LEN then Len(c) else if m == TYPE then Type else Bad(0)
    }

    /** inflate_fast(): decode without checking for input or room, as long as there is
        enough of both for any length/distance pair. */
    method InflateFast()
      requires Core() && CodeTables() && Kept() && mode == LEN
      requires nextIn + 6 <= |input| && nextOut + 258 <= output.Length
      modifies `nextIn, `nextOut, `hold, `bits, `mode, output
      ensures Core() && Moved(old(Abs()), false) && mode in {LEN, TYPE, BAD} && bits < 8
      ensures mode == LEN ==> nextIn + 6 + 3 > |input| || nextOut + 258 > output.Length
    {
      hide Lean, LeanAt, Leads, Goes, WF, PhaseOK, ByteBits, Num, Pow2, BB.Holds, TableOK, Acceptable, Decode, Thrifty,
           Kept, Step, Moved, CodeTables, Src, S, Lim, Abs, Pos, Buffer;
      ghost var c0 := Abs();
      AtLen();
      FirstSymbol();
      StartFast();
      var inp, h, b, put, m := FastLoop();
      HandBack(inp, h, b, put, m);
      LedTo(c0, Cfg(FastPhase(m), last, PosAt(inp, b), Out()));
    }

    lemma {:induction false} StartFast()
      requires Core() && mode == LEN && bits < 23
      ensures Fast(nextIn, hold, bits, nextOut) && FastCfg(Len(c), nextIn, hold, bits, nextOut) == Abs() && ahead == 0
    {
      hide BB.Holds, ByteBits;
    }

    /** The loop of inflate_fast. */
    method FastLoop() returns (inp: nat, h: nat, b: nat, put: nat, m: Mode)
      requires Fast(nextIn, hold, bits, nextOut) && CodeTables() && Kept()
      requires WF(FastCfg(Len(c), nextIn, hold, bits, nextOut), S())
      requires nextIn + 6 <= |input| && nextOut + 258 <= output.Length
      requires Buffer() && Pos() + Length(Decode(c.ll, Ahead())) > 8 * Taken() - 8
      modifies output
      ensures Fast(inp, h, b, put) && m in {LEN, TYPE, BAD}
      ensures Leads(old(FastCfg(Len(c), nextIn, hold, bits, nextOut)), S(), Lim(),
                    FastCfg(FastPhase(m), inp, h, b, put))
      ensures 8 * Taken() - 8 < PosAt(inp, b)
      ensures m == LEN ==> inp + 6 > |input| || put + 258 > output.Length
    {
      hide Leads, WF, ByteBits, BB.Holds, Decode, Kept, CodeTables, Src, S, Lim;
      ghost var c0 := FastCfg(Len(c), nextIn, hold, bits, nextOut);
      inp, h, b, put, m := FastTurn(nextIn, hold, bits, nextOut);
      while m == LEN && inp + 6 <= |input| && put + 258 <= output.Length
        invariant Fast(inp, h, b, put) && m in {LEN, TYPE, BAD}
        invariant Leads(c0, S(), Lim(), FastCfg(FastPhase(m), inp, h, b, put))
        invariant 8 * Taken() - 8 < PosAt(inp, b) <= |S()|
        decreases |S()| - PosAt(inp, b)
      {
        ghost var c1 := FastCfg(Len(c), inp, h, b, put);
        LeadsFacts(c0, S(), Lim(), c1);
        inp, h, b, put, m := FastTurn(inp, h, b, put);
        Twice(c0, S(), Lim(), c1, FastCfg(FastPhase(m), inp, h, b, put));
      }
    }

    /** The first symbol is not complete before the bytes that the accumulator held. */
    lemma {:induction false} FirstSymbol()
      requires Core() && mode == LEN && nextIn + 6 <= |input|
      ensures Pos() + Length(Decode(c.ll, Ahead())) > 8 * Taken() - 8
    {
      hide Decode, Step, WF, ByteBits, BB.Holds;
      AtLen();
      HoldIsAtHand();
      if Decode(c.ll, Ahead()).More? { MoreIsShort(LENS, c.ll, Ahead()); }
      if bits >= 8 { TakesMore(LENS, c.ll, AtHand(), Ahead()); }
    }

    /** Give unused bytes back, and write the local variables back to the state. */
    method HandBack(inp: nat, h: nat, b: nat, put: nat, m: Mode)
      requires Fast(inp, h, b, put) && 8 * Taken() - 8 < PosAt(inp, b)
      modifies `nextIn, `nextOut, `hold, `bits, `mode
      ensures Shape() && Buffer() && Pos() == PosAt(inp, b) && bits < 8 && nextOut == put && mode == m
      ensures inp <= nextIn + 3 && nextIn <= inp
    {
      hide BB.Holds;
      var len := b / 8;
      BB.GivenBack(Src(), |past| + inp, h, b, len);
      nextIn, nextOut, mode := inp - len, put, m;
      bits := b - 8 * len;
      hold := Low(h, bits);
    }

    // ---- One call of inflate() -----------------------------------------------------------------

    /** Between calls there is no input and no output. */
    ghost predicate Idle()
      reads `input, `nextIn, `nextOut
    {
      input == [] && nextIn == 0 && nextOut == 0
    }

    lemma {:induction false} CanAbs()
      requires Valid()
      ensures Shape() && Buffer()
    {
      hide WF, Lean;
    }

    /** LOAD(): the input and output of a call. */
    method Load(inp: seq<byte>, out: array<byte>)
      requires Valid() && Idle() && out != window
      modifies `input, `nextIn, `output, `nextOut
      ensures Valid() && Abs() == old(Abs()) && input == inp && nextIn == 0 && output == out && nextOut == 0
    {
      hide Step, WF, PhaseOK, ByteBits, Num, BB.Holds, FixedOK, CodeTables, ClTable, LensOK, ModeFields, BitFields,
           WindowOK, TableOK, Lean, LeanAt, Abs, Ph, Pos, Out, Src, S, Taken, Lim;
      ghost var d := Abs();
      Between(inp);
      Use(inp, out);
      Loaded(d);
    }

    method Use(inp: seq<byte>, out: array<byte>)
      modifies `input, `nextIn, `output, `nextOut
      ensures input == inp && nextIn == 0 && output == out && nextOut == 0
    {
      input, nextIn, output, nextOut := inp, 0, out, 0;
    }

    /** What is known between calls does not depend on the input to come. */
    lemma {:induction false} Between(inp: seq<byte>)
      requires Core() && Idle()
      ensures BB.Holds(past + inp, |past|, hold, bits) && WF(Abs(), ByteBits(past + inp)) && LeanAt(Abs(), past)
      ensures Abs() == Cfg(Ph(), last, 8 * |past| - bits, hist) && bits <= 32
    {
      hide Step, PhaseOK, BB.Holds;
      BB.MoreInput(Src(), Taken(), hold, bits, past + inp);
      BB.TakenBits(past + inp, |past|);
      assert Src()[..Taken()] == (past + inp)[..|past|] == past;
      assert output[..0] == [];
    }

    /** At the start of a call that is the invariant. */
    lemma {:induction false} Loaded(d: Cfg)
      requires Shape() && ModeFields() && BitFields() && nextIn == 0 && nextOut == 0 && bits <= 32
      requires BB.Holds(past + input, |past|, hold, bits) && WF(d, ByteBits(past + input)) && LeanAt(d, past)
      requires d == Cfg(Ph(), last, 8 * |past| - bits, hist)
      ensures Core() && Abs() == d
    {
      hide Step, PhaseOK, BB.Holds, WF;
      assert Src()[..Taken()] == past;
      assert output[..0] == [];
      assert Buffer() && Out() == hist;
      assert Abs() == d;
    }

    // ---- Every case keeps the whole invariant ---------------------------------------------------

    /** The cases of block headers. */
    method HeaderCases() returns (stop: bool)
      requires Valid() && (mode == TYPE || mode == TABLE)
      modifies `nextIn, `hold, `bits, `mode, `last, `virgin, `nlen, `ndist, `ncode, `have, `got, `c,
               `lencode, `lenStart, `lenEnd, `lenbits, `distcode, `distStart, `distEnd, `distbits, lens, work, fixedTab
      ensures Valid() && Moved(old(Abs()), stop)
    {
      hide Core, Moved, FixedOK, CodeTables, ClTable, WindowOK, LensOK, Abs, Src, S, Lim, Buffer;
      ValidCore();
      if mode == TYPE {
        stop := StepType();
        NoLens();
      } else {
        stop := StepTable();
      }
    }

    /** The cases of stored data. */
    method StoredCases() returns (stop: bool)
      requires Valid() && (mode == STORED || mode == COPY)
      modifies `nextIn, `nextOut, `hold, `bits, `mode, `length, `ahead, output
      ensures Valid() && Moved(old(Abs()), stop)
    {
      hide Core, Moved, FixedOK, CodeTables, ClTable, WindowOK, LensOK, Abs, Src, S, Lim, Buffer;
      ValidCore();
      if mode == STORED {
        stop := StepStored();
      } else {
        stop := StepCopy();
      }
      NoLens();
    }

    /** The cases of code lengths. */
    method LengthsCases() returns (stop: bool)
      requires Valid() && (mode == LENLENS || mode == CODELENS)
      modifies `nextIn, `hold, `bits, `mode, `have, `got, `ahead, `c, `cl, `lencode, `lenStart, `lenEnd, `lenbits,
               `distcode, `distStart, `distEnd, `distbits, lens, work, codes
      ensures Valid() && Moved(old(Abs()), stop)
    {
      hide Core, Moved, FixedOK, CodeTables, ClTable, WindowOK, LensOK, Abs, Src, S, Lim, Buffer;
      ValidCore();
      if mode == LENLENS {
        stop := StepLenLens();
      } else {
        stop := StepCodeLens();
      }
    }

    /** The cases of compressed data. With enough input and room, LEN takes the fast path. */
    method SymbolCases() returns (stop: bool)
      requires Valid() && InCodes()
      modifies `nextIn, `nextOut, `hold, `bits, `mode, `length, `offset, `extra, output
      ensures Valid() && Moved(old(Abs()), stop)
    {
      hide Core, Moved, FixedOK, CodeTables, ClTable, WindowOK, LensOK, Abs, Src, S, Lim, Buffer;
      ValidCore();
      match mode {
        case LEN =>
          if |input| - nextIn >= 6 && output.Length - nextOut >= 258 {
            InflateFast();
            stop := false;
          } else {
            stop := StepLen();
          }
        case LENEXT => stop := StepLenExt();
        case DIST => stop := StepDist();
        case DISTEXT => stop := StepDistExt();
        case MATCH => stop := StepMatch();
        case LIT => stop := StepLit();
      }
      NoLens();
    }

    lemma {:induction false} ValidCore()
      requires Valid()
      ensures Shape() && Buffer() && (Finished() || Kept())
    {
      hide WF, Lean;
    }

    lemma {:induction false} NoLens()
      requires lens.Length == 320 && mode != LENLENS && mode != CODELENS
      ensures LensOK()
    {}

    /** One pass of the switch, but for the cases that only change the mode. */
    method Pass() returns (stop: bool)
      requires Valid() && mode != HEAD && !Finished()
      modifies `nextIn, `nextOut, `hold, `bits, `mode, `last, `virgin, `length, `offset, `extra,
               `nlen, `ndist, `ncode, `have, `got, `ahead, `c, `cl, `lencode, `lenStart, `lenEnd, `lenbits,
               `distcode, `distStart, `distEnd, `distbits, lens, work, codes, fixedTab, output
      ensures Valid() && Moved(old(Abs()), stop)
    {
      hide Core, Moved, Valid, Abs;
      CanAbs();
      if mode == TYPE || mode == TABLE {
        stop := HeaderCases();
      } else if mode == STORED || mode == COPY {
        stop := StoredCases();
      } else if mode == LENLENS || mode == CODELENS {
        stop := LengthsCases();
      } else {
        stop := SymbolCases();
      }
    }

    /** HEAD without a wrapper, and CHECK. */
    method ChangeMode()
      requires Valid() && (mode == HEAD || mode == CHECK)
      modifies `mode
      ensures Valid() && Abs() == old(Abs()) && mode == if old(mode) == HEAD then TYPE else DONE
    {
      hide WF, Buffer, FixedOK, CodeTables, ClTable, WindowOK, Step, Out, Pos;
      mode := if mode == HEAD then TYPE else DONE;
    }

    /** The machine has got from c0 to the present state. */
    ghost predicate Reached(c0: Cfg)
      reads `mode, `length, `nlen, `ndist, `ncode, `got, `cl, `c, `extra, `offset, `ahead, `last,
            `past, `input, `nextIn, `hold, `bits, `hist, `output, `nextOut, output
      requires Shape() && Buffer()
    {
      WF(c0, S()) && WF(Abs(), S()) && Final(c0, S(), Lim()) == Final(Abs(), S(), Lim())
    }

    /** What decreases from pass to pass: the bits to come, the room left, the phase. */
    ghost function BitsToCome(): int
      reads `past, `input, `nextIn, `hold, `bits, `output, `nextOut
      requires Shape() && Buffer()
    {
      |S()| - Pos()
    }

    ghost function Room(): int
      reads `hist, `output, `nextOut
    {
      output.Length - nextOut
    }

    lemma {:induction false} Measured(c0: Cfg)
      requires Core() && Reached(c0)
      ensures BitsToCome() == |S()| - Abs().pos >= 0 && Room() == Lim() - |Abs().out| >= 0
      ensures Rank(Ph()) == Rank(Abs().ph)
      ensures WF(c0, S()) && WF(Abs(), S()) && Final(c0, S(), Lim()) == Final(Abs(), S(), Lim())
    {
      hide Final, Step;
    }

    lemma {:induction false} Onwards(c0: Cfg, c1: Cfg, stop: bool)
      requires Core() && WF(c0, S()) && WF(c1, S()) && Final(c0, S(), Lim()) == Final(c1, S(), Lim())
      requires Moved(c1, stop) && |c1.out| <= Lim()
      ensures Reached(c0) && BitsToCome() >= 0 && Room() >= 0
      ensures stop || Smaller(|S()| - c1.pos, Lim() - |c1.out|, Rank(c1.ph), 0)
      ensures stop ==> Final(c0, S(), Lim()) == Abs() && TakenRight() && !Finished() && mode != HEAD
    {
      hide Step, Leads;
      if Leads(c1, S(), Lim(), Abs()) { LeadsFacts(c1, S(), Lim(), Abs()); }
      if stop { StoppedRight(); }
    }

    /** The end of the loop. */
    lemma {:induction false} Stopped(c0: Cfg)
      requires Core() && Reached(c0) && Final(c0, S(), Lim()) == Abs() && TakenRight()
      ensures StopsAt(c0, Src(), Lim(), Abs())
    {
      hide Final, Step;
    }

    /** The bytes taken are those that the machine's stopping here calls for. */
    ghost predicate TakenRight()
      reads `mode, `length, `nlen, `ndist, `ncode, `got, `cl, `c, `extra, `offset, `ahead, `last,
            `past, `input, `nextIn, `hold, `bits, `hist, `output, `nextOut, output
      requires Shape() && Buffer()
    {
      TakesRight(Abs(), Src(), Taken())
    }

    /** A machine that waits: for input, and all is taken, or for room, and less than a
        byte is left over. */
    lemma {:induction false} StoppedRight()
      requires Core() && Step(Abs(), S(), Lim()).None? && !Finished()
      requires nextIn == |input| || (bits < 8 && Step(Abs(), S(), |Out()| + 1).Some?)
      ensures TakenRight()
    {
      hide Step, WF, BB.Holds, ByteBits;
      AlignDrops(Taken(), bits);
      if Step(Abs(), S(), |Out()| + 1).Some? {
        if mode == STORED { StoredWaits(Abs(), S(), |Out()| + 1, Lim()); }
        assert nextIn == |input| ==> Src()[..Taken()] == Src();
      }
    }

    /** A machine at its end has taken what it looked at. */
    lemma {:induction false} EndedRight()
      requires Core() && (mode == DONE || mode == BAD)
      ensures TakenRight()
    {
      hide Step, WF, BB.Holds, ByteBits;
      AlignDrops(Taken(), bits);
      if mode == BAD { AlignDrops(Taken(), bits - ahead); }
    }

    /** A finished machine stays where it is. */
    lemma {:induction false} AtEnd(c0: Cfg)
      requires Valid() && (mode == DONE || mode == BAD) && Reached(c0)
      ensures Final(c0, S(), Lim()) == Abs() && TakenRight()
    {
      hide Final, Step;
      EndStays(Abs(), S(), Lim());
      EndedRight();
    }

    /** inf_leave: the window is brought up to date, unless it will not be needed. */
    method Leave()
      requires Valid()
      modifies window, `wsize, `whave, `write, `past, `hist, `input, `nextIn, `nextOut
      ensures Valid() && Idle() && Abs() == old(Abs())
      ensures past == old(past + input[..nextIn]) && hist == old(Out()) == Abs().out
    {
      hide WF, Step, Buffer, PhaseOK, FixedOK, CodeTables, ClTable, LensOK, WindowOK, Lean, ModeFields, BitFields, Ph,
           Pos, S, Src, Taken, Lim, Abs;
      AbsIs();
      if wsize != 0 || (!Finished() && nextOut > 0) {
        UpdateWindow();
      } else if nextOut == 0 {
        assert Out() == hist;
      }
      Settle();
    }

    /** The bytes taken and written belong to the past. */
    method Settle()
      requires Core() && LensOK() && FixedOK() && (InCodes() ==> CodeTables()) && (mode == CODELENS ==> ClTable())
      requires (Finished() && wsize == 0) || WindowOK(window[..], wsize, whave, write, Out())
      modifies `past, `hist, `input, `nextIn, `nextOut
      ensures Valid() && Idle() && Abs() == old(Abs())
      ensures past == old(past + input[..nextIn]) && hist == old(Out())
    {
      hide Step, WF, PhaseOK, ByteBits, Num, BB.Holds, FixedOK, CodeTables, ClTable, LensOK, ModeFields, BitFields,
           WindowOK, TableOK, Lean, LeanAt, Abs, Ph, Pos, Out, Src, S, Taken, Lim;
      ghost var d := Abs();
      Settling();
      Forget();
      assert past + input == past;
      Loaded(d);
    }

    method Forget()
      requires nextIn <= |input| && nextOut <= output.Length
      modifies `past, `hist, `input, `nextIn, `nextOut
      ensures Idle() && past == old(past + input[..nextIn]) && hist == old(Out())
    {
      past, hist := past + input[..nextIn], Out();
      input, nextIn, nextOut := [], 0, 0;
    }

    /** What is known does not depend on the input not taken. */
    lemma {:induction false} Settling()
      requires Core()
      ensures var src := past + input[..nextIn];
        && BB.Holds(src, |src|, hold, bits) && WF(Abs(), ByteBits(src)) && LeanAt(Abs(), src) && bits <= 32
        && Abs() == Cfg(Ph(), last, 8 * |src| - bits, Out())
    {
      hide Step, PhaseOK, BB.Holds, ByteBits, WF;
      assert Src()[..Taken()] == past + input[..nextIn];
      BB.MoreInput(Src(), Taken(), hold, bits, Src()[..Taken()]);
      SettledWF();
    }

    lemma {:induction false} SettledWF()
      requires Shape() && Buffer() && WF(Abs(), S())
      ensures WF(Abs(), Seen())
    {
      hide PhaseOK, BB.Holds, ByteBits;
      BB.TakenBits(Src(), Taken());
    }

    /** The loop around the switch. */
    method Run() returns (ret: Ret)
      requires Valid()
      modifies `nextIn, `nextOut, `hold, `bits, `mode, `last, `virgin, `length, `offset, `extra,
               `nlen, `ndist, `ncode, `have, `got, `ahead, `c, `cl, `lencode, `lenStart, `lenEnd, `lenbits,
               `distcode, `distStart, `distEnd, `distbits, lens, work, codes, fixedTab, output
      ensures Valid() && StopsAt(old(Abs()), Src(), Lim(), Abs()) && TakenRight()
      ensures ret == if Ph().Done? then Z_STREAM_END else if Ph().Bad? then Z_DATA_ERROR else Z_OK
    {
      hide ModeFields, BitFields, Lean, LeanAt, WF, Buffer, FixedOK, CodeTables, ClTable, WindowOK, LensOK, Final, Step,
           Ph, Pos, Out, Src, S, Taken, Lim, Abs, Reached, BitsToCome, TakenRight;
      ghost var c0 := Abs();
      Starting(c0);
      Measured(c0);
      while true
        invariant Valid() && Reached(c0) && BitsToCome() >= 0 && Room() >= 0
        decreases BitsToCome(), Room(), Rank(Ph()), Changes()
      {
        var stop;
        stop, ret := Turn(c0);
        if stop { break; }
      }
      Stopped(c0);
      PhaseOfMode();
    }

    /** One turn of it. */
    method Turn(ghost c0: Cfg) returns (stop: bool, ret: Ret)
      requires Valid() && Reached(c0)
      modifies `nextIn, `nextOut, `hold, `bits, `mode, `last, `virgin, `length, `offset, `extra,
               `nlen, `ndist, `ncode, `have, `got, `ahead, `c, `cl, `lencode, `lenStart, `lenEnd, `lenbits,
               `distcode, `distStart, `distEnd, `distbits, lens, work, codes, fixedTab, output
      ensures Valid() && Reached(c0) && BitsToCome() >= 0 && Room() >= 0
      ensures stop ==> Final(c0, S(), Lim()) == Abs() && mode != HEAD && mode != CHECK && TakenRight()
      ensures stop ==> ret == if mode == DONE then Z_STREAM_END else if mode == BAD then Z_DATA_ERROR else Z_OK
      ensures stop || Smaller(old(BitsToCome()), old(Room()), old(Rank(Ph())), old(Changes()))
    {
      hide ModeFields, BitFields, Lean, LeanAt, WF, Buffer, Moved, FixedOK, CodeTables, ClTable, WindowOK, LensOK,
           Final, Step, Ph, Pos, Out, Src, S, Taken, Lim, Abs, BitsToCome, TakenRight;
      stop, ret := false, Z_OK;
      ghost var c1 := Abs();
      Measured(c0);
      if mode == HEAD || mode == CHECK {
        ChangeMode();
        Measured(c0);
      } else if mode == DONE {
        AtEnd(c0);
        ret, stop := Z_STREAM_END, true;
      } else if mode == BAD {
        AtEnd(c0);
        ret, stop := Z_DATA_ERROR, true;
      } else {
        stop := Pass();
        Onwards(c0, c1, stop);
      }
    }

    /** What decreases from turn to turn. */
    ghost predicate Smaller(b: int, r: int, k: nat, n: nat)
      reads `mode, `length, `nlen, `ndist, `ncode, `got, `cl, `c, `extra, `offset, `ahead,
            `past, `input, `nextIn, `hold, `bits, `hist, `output, `nextOut
      requires Shape() && Buffer()
    {
      BitsToCome() < b || (BitsToCome() == b &&
        (Room() < r || (Room() == r && (Rank(Ph()) < k || (Rank(Ph()) == k && Changes() < n)))))
    }

    /** Changes of mode that the machine does not make. */
    ghost function Changes(): nat
      reads `mode
    {
      if mode == HEAD || mode == CHECK then 1 else 0
    }

    lemma {:induction false} PhaseOfMode()
      requires Core()
      ensures Ph().Done? <==> mode == CHECK || mode == DONE
      ensures Ph().Bad? <==> mode == BAD
    {
      hide Lean, LeanAt, WF;
    }

    /** inflate(): take what can be taken of inp and write what fits into out. The state
        is then where the machine stops on everything that was ever given. */
    method Inflate(inp: seq<byte>, out: array<byte>) returns (ret: Ret, taken: nat, written: nat)
      requires Valid() && Idle() && out != window
      modifies this, lens, work, codes, fixedTab, window, out
      ensures Valid() && Idle()
      ensures taken <= |inp| && past == old(past) + inp[..taken]
      ensures written <= out.Length && hist == old(hist) + out[..written] == Abs().out
      ensures StopsAt(old(Abs()), old(past) + inp, |old(hist)| + out.Length, Abs())
      ensures TakesRight(Abs(), old(past) + inp, |past|)
      ensures ret == if Abs().ph.Done? then Z_STREAM_END else if Abs().ph.Bad? then Z_DATA_ERROR
                     else if taken == 0 && written == 0 then Z_BUF_ERROR else Z_OK
    {
      hide ModeFields, BitFields, Lean, LeanAt, WF, Buffer, FixedOK, CodeTables, ClTable, WindowOK, LensOK, Ph, Pos, S,
           Abs, StopsAt, TakesRight, Valid;
      CanAbs();
      Load(inp, out);
      ret := Run();
      CanAbs();
      AbsIs();
      InRange();
      taken, written := nextIn, nextOut;
      Leave();
      CanAbs();
      if taken == 0 && written == 0 && ret == Z_OK { ret := Z_BUF_ERROR; }
    }

    lemma {:induction false} Starting(c0: Cfg)
      requires Valid() && c0 == Abs()
      ensures Reached(c0) && WF(c0, S())
    {
      hide Final;
    }
  }

  lemma {:induction false} EndStays(d: Cfg, S: Stream, limit: nat)
    requires WF(d, S) && (d.ph.Done? || d.ph.Bad?)
    ensures Final(d, S, limit) == d
  {}

  lemma {:induction false} StoredWaits(d: Cfg, S: Stream, l: nat, m: nat)
    requires WF(d, S) && d.ph.Stored?
    ensures Step(d, S, l) == Step(d, S, m)
  {
    hide Num;
  }

  /** Where one code length leads. */
  lemma {:induction false} AfterShort(d: Cfg, S: Stream, s: nat, n: nat)
    requires d.ph.CodeLens? && s < 16 && d.pos + n <= |S|
    ensures AfterCodeLen(d, S, s, n) ==
            Cfg(CodeLens(d.ph.nlen, d.ph.ndist, d.ph.cl, d.ph.got + [s]), d.last, d.pos + n, d.out)
  {}

  /** Where a repeat leads. */
  lemma {:induction false} AfterRepeat(d: Cfg, S: Stream, s: nat, n: nat)
    requires d.ph.CodeLens? && 16 <= s < 19 && d.pos + n + RepeatBits(s) <= |S|
    ensures var CodeLens(nlen, ndist, cl, got) := d.ph;
            var r, e := RepeatBase(s) + Num(S, d.pos + n, RepeatBits(s)), AfterCodeLen(d, S, s, n);
            e.last == d.last && e.out == d.out &&
            if s == 16 && got == [] then e.ph == Bad(2) && e.pos == d.pos + n
            else
              && e.pos == d.pos + n + RepeatBits(s)
              && e.ph == if |got| + r > nlen + ndist then Bad(0)
                         else CodeLens(nlen, ndist, cl, got + Repeat(if s == 16 then got[|got| - 1] else 0, r))
  {
    hide Num, Repeat;
  }

  lemma {:induction false} AfterKeeps(d: Cfg, S: Stream, s: nat, n: nat)
    requires d.ph.CodeLens? && s < 19 && d.pos + n + (if s < 16 then 0 else RepeatBits(s)) <= |S|
    ensures var e := AfterCodeLen(d, S, s, n); e.last == d.last && e.out == d.out
  {
    hide Num, Repeat;
  }

  lemma {:induction false} RepeatSizes(s: nat)
    requires 16 <= s < 19
    ensures 2 <= RepeatBits(s) <= 7 && (s == 16 ==> RepeatBits(s) == 2)
  {}

  lemma {:induction false} CodeIsShort(lens: Lens, w: seq<bool>)
    requires Decode(lens, w).Found?
    ensures Decode(lens, w).n <= MAXBITS
  {
    FoundMatches(lens, w);
  }

  lemma {:induction false} Pow2Is8()
    ensures Pow2(3) == 8
  {}

  /** What a well-formed configuration says of its phase. */
  lemma {:induction false} WFPhase(c: Cfg, S: Stream)
    requires WF(c, S)
    ensures PhaseOK(c.ph, c.out) && c.pos <= |S|
  {}

  lemma {:induction false} ClSmall(got: Lens)
    requires forall i :: 0 <= i < |got| ==> got[i] <= 7
    ensures AtMost(ClLens(got), 7)
  {}

  lemma {:induction false} TableSize(kind: Kind, l: Lens, t: seq<Code>, root: nat)
    requires TableOK(kind, l, t, root)
    ensures Pow2(root) <= |t|
  {}

  /** What the counts of a dynamic block's codes lead to. */
  ghost function TablePhase(pos: nat, S: Stream): Phase
    requires pos + 14 <= |S|
  {
    var a, b, n := Num(S, pos, 5), Num(S, pos + 5, 5), Num(S, pos + 10, 4);
    if a > 29 || b > 29 then Bad(0) else LenLens(a + 257, b + 1, n + 4, [])
  }

  lemma {:induction false} FixedFacts()
    ensures Acceptable(LENS, FixedLengths()) && Acceptable(DISTS, FixedDistances())
    ensures AtMost(FixedLengths(), 9) && AtMost(FixedDistances(), 5)
    ensures forall r: nat :: AtMost(FixedLengths(), r) ==> 9 <= r
    ensures forall r: nat :: AtMost(FixedDistances(), r) ==> 5 <= r
  {
    hide Acceptable, Complete;
    M.FixedOK();
    assert FixedLengths()[144] == 9 && FixedDistances()[0] == 5;
  }

  lemma {:induction false} TableFacts(kind: Kind, l: Lens, t: seq<Code>, root: nat)
    requires TableOK(kind, l, t, root)
    ensures |l| <= Limit(kind) && Acceptable(kind, l) && 1 <= root <= MAXBITS
  {}

  lemma {:induction false} TellsMore(kind: Kind, l: Lens, e: Code, w: seq<bool>, v: seq<bool>)
    requires |l| <= Limit(kind) && Tells(kind, l, e, w, v) && e.bits > |w|
    ensures Decode(l, w).More?
  {}

  /** Entry e, after n bits, is what the decoded symbol d stands for. */
  ghost predicate Drops(kind: Kind, l: Lens, d: Decoded, e: Code, n: int)
    requires |l| <= Limit(kind)
  {
    match d
    case More => false
    case Invalid => e.op == 64 && e.val == 0 && n == 1
    case Found(s, k) => Uses(l, s) && n == k && e.op == Entry(kind, s, 0).op && e.val == Entry(kind, s, 0).val
  }

  /** A symbol that is told by bits pulled one byte at a time leaves less than a byte. */
  lemma {:induction false} ToldAll(kind: Kind, l: Lens, e: Code, w: seq<bool>, v: seq<bool>)
    requires |l| <= Limit(kind) && Acceptable(kind, l) && w <= v && Tells(kind, l, e, w, v) && e.bits <= |w|
    requires |w| < 8 || Decode(l, w).More? || Decode(l, w[..|w| - 8]).More?
    ensures |w| - e.bits < 8
    ensures forall b: byte :: Drops(kind, l, Decode(l, v), Code(e.op, b, e.val), e.bits)
  {
    hide Decode, Tells, Drops, Acceptable;
    Leftover(kind, l, e, w, v);
    DropsTold(kind, l, e, w, v);
  }

  lemma {:induction false} DropsTold(kind: Kind, l: Lens, e: Code, w: seq<bool>, v: seq<bool>)
    requires |l| <= Limit(kind) && Tells(kind, l, e, w, v) && e.bits <= |w|
    ensures Drops(kind, l, Decode(l, v), e, e.bits)
    ensures Drops(kind, l, Decode(l, v), Code(e.op, 0, e.val), e.bits)
    ensures forall b: byte :: Drops(kind, l, Decode(l, v), Code(e.op, b, e.val), e.bits)
  {}

  /** Where a symbol leads, by the operation bits of its entry. */
  ghost predicate LenTold(codes: Codes, d: Decoded, e: Code, n: int) {
    && n == Length(d) && !d.More?
    && var ph := AfterLen(codes, d);
      if e.op == 0 then e.val < 256 && ph == Lit(codes, e.val)
      else if e.op / 32 % 2 == 1 then ph == Type && e.op / 16 % 2 == 0 && e.op / 64 % 2 == 1
      else if e.op / 64 % 2 == 1 then ph == Bad(0) && e.op / 16 % 2 == 0
      else e.op / 16 % 2 == 1 && ph == LenExt(codes, e.val, e.op % 16) && 3 <= e.val && e.op % 16 <= 5
           && e.val + Pow2(e.op % 16) <= 259
  }

  lemma {:induction false} LenEntry(codes: Codes, d: Decoded, e: Code, n: int)
    requires |codes.ll| <= 288 && Drops(LENS, codes.ll, d, e, n)
    ensures LenTold(codes, d, e, n)
  {
    hide Pow2, LenBase;
    if d.Found? && 257 <= d.s < 286 { LengthMax(d.s); }
  }

  /** So do those of a distance entry. */
  lemma {:induction false} DistEntry(codes: Codes, length: nat, d: Decoded, e: Code, n: int)
    requires |codes.dl| <= 32 && Drops(DISTS, codes.dl, d, e, n)
    ensures n == Length(d) && !d.More?
    ensures var ph := AfterDist(codes, length, d);
      if e.op / 64 % 2 == 1 then ph == Bad(0) && e.op / 16 % 2 == 0
      else e.op / 16 % 2 == 1 && ph == DistExt(codes, length, e.val, e.op % 16) && 1 <= e.val && e.op % 16 <= 13
           && e.val + Pow2(e.op % 16) <= 32769
  {
    hide Pow2, DistBase;
    if d.Found? && d.s < 30 { DistanceMax(d.s); }
  }

  lemma {:induction false} EmptyCopy(h: seq<byte>, dist: nat)
    requires 1 <= dist <= |h|
    ensures R.CopyMatch(h, 0, dist) == h
  {}

  lemma {:induction false} FirstPart(a: seq<byte>, x: nat, m: nat, n: nat)
    requires n <= m && x + m <= |a|
    ensures a[x..x + n] == a[x..x + m][..n]
  {}
}
