/** Runs of the machine that one case of inflate() makes at once. */
module Runs {
  import opened Bits
  import opened Canonical
  import opened Tables
  import opened Streams
  import opened Machine
  import opened Slicing
  import BB = BitBuffer
  import R = Rfc1951

  /** c' is further on than c: more bits, or more output, or a later phase. */
  ghost predicate Later(c: Cfg, c': Cfg) {
    && c.pos <= c'.pos && |c.out| <= |c'.out|
    && (c.pos < c'.pos || |c.out| < |c'.out| || Rank(c'.ph) < Rank(c.ph))
  }

  /** n steps of the machine lead from c to c'. */
  ghost predicate Path(c: Cfg, S: Stream, limit: nat, n: nat, c': Cfg)
    decreases n
  {
    WF(c, S) &&
    if n == 0 then c' == c
    else Step(c, S, limit).Some? && Path(Step(c, S, limit).value, S, limit, n - 1, c')
  }

  /** The machine gets from c to c', by at least one step. */
  ghost predicate Leads(c: Cfg, S: Stream, limit: nat, c': Cfg) {
    exists n: nat :: n > 0 && Path(c, S, limit, n, c')
  }

  lemma {:induction false} OneStep(c: Cfg, S: Stream, limit: nat, c': Cfg)
    requires WF(c, S) && Step(c, S, limit) == Some(c')
    ensures Path(c, S, limit, 1, c') && Leads(c, S, limit, c')
  {
    hide Step;
    StepKeeps(c, S, limit);
    assert Path(c', S, limit, 0, c');
    assert Path(c, S, limit, 1, c');
  }

  lemma {:induction false} PathJoin(c: Cfg, S: Stream, limit: nat, m: nat, c': Cfg, n: nat, c'': Cfg)
    requires Path(c, S, limit, m, c') && Path(c', S, limit, n, c'')
    ensures Path(c, S, limit, m + n, c'')
    decreases m
  {
    hide Step;
    if m == 0 {
    } else {
      PathJoin(Step(c, S, limit).value, S, limit, m - 1, c', n, c'');
    }
  }

  lemma {:induction false} Twice(c: Cfg, S: Stream, limit: nat, c': Cfg, c'': Cfg)
    requires Leads(c, S, limit, c') && Leads(c', S, limit, c'')
    ensures Leads(c, S, limit, c'')
  {
    hide Path;
    var m: nat :| m > 0 && Path(c, S, limit, m, c');
    var n: nat :| n > 0 && Path(c', S, limit, n, c'');
    PathJoin(c, S, limit, m, c', n, c'');
  }

  /** A run keeps configurations well formed, moves on, and ends where the machine ends. */
  lemma {:induction false} PathFacts(c: Cfg, S: Stream, limit: nat, n: nat, c': Cfg)
    requires Path(c, S, limit, n, c')
    ensures WF(c, S) && WF(c', S) && Final(c, S, limit) == Final(c', S, limit)
    ensures c.pos <= c'.pos && |c.out| <= |c'.out| && (n > 0 ==> Later(c, c'))
    ensures |c.out| <= limit ==> |c'.out| <= limit
    decreases n
  {
    hide Step;
    if n == 0 {
    } else {
      StepKeeps(c, S, limit);
      PathFacts(Step(c, S, limit).value, S, limit, n - 1, c');
    }
  }

  lemma {:induction false} LeadsFacts(c: Cfg, S: Stream, limit: nat, c': Cfg)
    requires Leads(c, S, limit, c')
    ensures WF(c, S) && WF(c', S) && Final(c, S, limit) == Final(c', S, limit) && Later(c, c')
    ensures c.pos <= c'.pos && |c.out| <= |c'.out| && (|c.out| <= limit ==> |c'.out| <= limit)
  {
    hide Final, Path;
    var n: nat :| n > 0 && Path(c, S, limit, n, c');
    PathFacts(c, S, limit, n, c');
  }

  /** From c, on all of src, the machine stops in c'. */
  ghost predicate StopsAt(c: Cfg, src: seq<byte>, limit: nat, c': Cfg) {
    WF(c, ByteBits(src)) && c' == Final(c, ByteBits(src), limit)
  }

  /** taken is the number of bytes that stopping in f, on all of src, calls for. */
  ghost predicate TakesRight(f: Cfg, src: seq<byte>, taken: nat) {
    WF(f, ByteBits(src)) && taken == Consumed(f, ByteBits(src))
  }

  lemma {:induction false} CopySnoc(out: seq<byte>, n: nat, distance: nat)
    requires 1 <= distance <= |out|
    ensures var o := R.CopyMatch(out, n, distance);
            R.CopyMatch(out, n + 1, distance) == o + [o[|o| - distance]]
    decreases n
  {
    if n == 0 {
    } else {
      CopySnoc(out + [out[|out| - distance]], n - 1, distance);
    }
  }

  /** n bytes of a match are n steps. */
  lemma {:induction false} MatchRun(codes: Codes, length: nat, offset: nat, last: bool, S: Stream, pos: nat,
                                    out: seq<byte>, limit: nat, n: nat)
    requires CodesOK(codes) && pos <= |S| && 1 <= n <= length && 1 <= offset <= |out| && |out| + n <= limit
    ensures Path(Cfg(Match(codes, length, offset), last, pos, out), S, limit, n,
                 Cfg(if n == length then Len(codes) else Match(codes, length - n, offset), last, pos,
                     R.CopyMatch(out, n, offset)))
    decreases n
  {
    hide Final, Path;
    var c, out' := Cfg(Match(codes, length, offset), last, pos, out), out + [out[|out| - offset]];
    assert R.CopyMatch(out', 0, offset) == out';
    if n == 1 {
      OneStep(c, S, limit, Cfg(if length == 1 then Len(codes) else Match(codes, length - 1, offset), last, pos, out'));
    } else {
      var d := Cfg(Match(codes, length - 1, offset), last, pos, out');
      OneStep(c, S, limit, d);
      MatchRun(codes, length - 1, offset, last, S, pos, out', limit, n - 1);
      PathJoin(c, S, limit, 1, d, n - 1, Cfg(if n == length then Len(codes) else Match(codes, length - n, offset),
                                             last, pos, R.CopyMatch(out, n, offset)));
    }
  }

  /** n bytes of a stored block are n steps. */
  lemma {:induction false} CopyRun(length: nat, last: bool, S: Stream, pos: nat, out: seq<byte>, limit: nat, n: nat)
    requires 1 <= n <= length && pos + 8 * n <= |S| && |out| + n <= limit
    ensures Path(Cfg(Copy(length), last, pos, out), S, limit, n,
                 Cfg(Copy(length - n), last, pos + 8 * n, out + R.BytesAt(S, pos, n)))
    decreases n
  {
    hide Final, Num, Path;
    NumBound(S, pos, 8);
    Pow2Values();
    var c, out' := Cfg(Copy(length), last, pos, out), out + [Num(S, pos, 8)];
    var d := Cfg(Copy(length - 1), last, pos + 8, out');
    OneStep(c, S, limit, d);
    if n == 1 {
      assert R.BytesAt(S, pos + 8, 0) == [];
      assert out + R.BytesAt(S, pos, 1) == out';
    } else {
      CopyRun(length - 1, last, S, pos + 8, out', limit, n - 1);
      assert out' + R.BytesAt(S, pos + 8, n - 1) == out + R.BytesAt(S, pos, n);
      PathJoin(c, S, limit, 1, d, n - 1, Cfg(Copy(length - n), last, pos + 8 * n, out + R.BytesAt(S, pos, n)));
    }
  }

  lemma {:induction false} CopyWaits(length: nat, last: bool, S: Stream, pos: nat, out: seq<byte>, limit: nat)
    requires WF(Cfg(Copy(length), last, pos, out), S) && length > 0
    ensures Step(Cfg(Copy(length), last, pos, out), S, limit).None? <==> pos + 8 > |S| || |out| >= limit
  {
    hide Final, Num;
  }

  lemma {:induction false} BytesAtAre(src: seq<byte>, i: nat, n: nat)
    requires i + n <= |src|
    ensures R.BytesAt(ByteBits(src), 8 * i, n) == src[i..i + n]
    decreases n
  {
    if n == 0 {
    } else {
      BB.ByteAt(src, i);
      BytesAtAre(src, i + 1, n - 1);
    }
  }

  // ---- Single steps ----------------------------------------------------------------------

  /** The machine takes the step from c to c'. */
  ghost predicate Goes(c: Cfg, S: Stream, limit: nat, c': Cfg) {
    WF(c, S) && Step(c, S, limit) == Some(c')
  }

  lemma {:induction false} GoesSteps(c: Cfg, S: Stream, limit: nat, c': Cfg)
    requires Goes(c, S, limit, c')
    ensures WF(c, S) && Step(c, S, limit).Some? && Leads(c, S, limit, c') && WF(c', S)
  {
    hide Step, Path;
    OneStep(c, S, limit, c');
    StepKeeps(c, S, limit);
  }

  lemma {:induction false} TypeRun(last: bool, S: Stream, pos: nat, out: seq<byte>, limit: nat)
    requires WF(Cfg(Type, last, pos, out), S)
    ensures var c := Cfg(Type, last, pos, out);
            && (last ==> Goes(c, S, limit, Cfg(Done, true, Align(pos), out)))
            && (!last ==> (Step(c, S, limit).None? <==> pos + 3 > |S|))
            && (!last && pos + 3 <= |S| ==>
                Goes(c, S, limit, Cfg(TypePhase(Num(S, pos + 1, 2)), S[pos], pos + 3, out)))
  {
    hide Num;
  }

  /** The phase that a block type leads to. */
  function TypePhase(btype: nat): Phase {
    match btype case 0 => Stored case 1 => Len(Fixed()) case 2 => Table case _ => Bad(0)
  }

  lemma {:induction false} AlignRun(last: bool, S: Stream, pos: nat, out: seq<byte>, limit: nat)
    requires WF(Cfg(Stored, last, pos, out), S) && pos % 8 != 0
    ensures Align(pos) <= |S|
    ensures Goes(Cfg(Stored, last, pos, out), S, limit, Cfg(Stored, last, Align(pos), out))
  {
    hide Num;
  }

  lemma {:induction false} StoredRun(last: bool, S: Stream, pos: nat, out: seq<byte>, limit: nat)
    requires WF(Cfg(Stored, last, pos, out), S) && pos % 8 == 0
    ensures var c := Cfg(Stored, last, pos, out);
            && (Step(c, S, limit).None? <==> pos + 32 > |S|)
            && (pos + 32 <= |S| ==>
                var len, nlen := Num(S, pos, 16), Num(S, pos + 16, 16);
                if len + nlen == 65535 then Goes(c, S, limit, Cfg(Copy(len), last, pos + 32, out))
                else Goes(c, S, limit, Cfg(Bad(32), last, pos, out)))
  {
    hide Num;
  }

  lemma {:induction false} CopyEnd(last: bool, S: Stream, pos: nat, out: seq<byte>, limit: nat)
    requires WF(Cfg(Copy(0), last, pos, out), S)
    ensures Goes(Cfg(Copy(0), last, pos, out), S, limit, Cfg(Type, last, pos, out))
  {}

  lemma {:induction false} TableRun(last: bool, S: Stream, pos: nat, out: seq<byte>, limit: nat)
    requires WF(Cfg(Table, last, pos, out), S)
    ensures var c := Cfg(Table, last, pos, out);
            && (Step(c, S, limit).None? <==> pos + 14 > |S|)
            && (pos + 14 <= |S| ==>
                var nlen, ndist, ncode := Num(S, pos, 5) + 257, Num(S, pos + 5, 5) + 1, Num(S, pos + 10, 4) + 4;
                Goes(c, S, limit, Cfg(if nlen > 286 || ndist > 30 then Bad(0) else LenLens(nlen, ndist, ncode, []),
                                      last, pos + 14, out)))
  {
    hide Num;
  }

  lemma {:induction false} ClNumberRun(nlen: nat, ndist: nat, ncode: nat, got: Lens, last: bool, S: Stream, pos: nat,
                                       out: seq<byte>, limit: nat)
    requires WF(Cfg(LenLens(nlen, ndist, ncode, got), last, pos, out), S) && |got| < ncode
    ensures var c := Cfg(LenLens(nlen, ndist, ncode, got), last, pos, out);
            && (Step(c, S, limit).None? <==> pos + 3 > |S|)
            && (pos + 3 <= |S| ==> Num(S, pos, 3) <= 7)
            && (pos + 3 <= |S| ==>
                Goes(c, S, limit, Cfg(LenLens(nlen, ndist, ncode, got + [Num(S, pos, 3)]), last, pos + 3, out)))
  {
    hide Num;
    if pos + 3 <= |S| {
      NumBound(S, pos, 3);
      Pow2Values();
    }
  }

  lemma {:induction false} ClCodeRun(nlen: nat, ndist: nat, ncode: nat, got: Lens, last: bool, S: Stream, pos: nat,
                                     out: seq<byte>, limit: nat)
    requires WF(Cfg(LenLens(nlen, ndist, ncode, got), last, pos, out), S) && |got| == ncode
    ensures var c, cl := Cfg(LenLens(nlen, ndist, ncode, got), last, pos, out), ClLens(got);
            Goes(c, S, limit,
                 Cfg(if Acceptable(CODES, cl) then CodeLens(nlen, ndist, cl, []) else Bad(0), last, pos, out))
  {
    hide Acceptable;
  }

  /** One symbol of the code lengths. */
  lemma {:induction false} CodeLenRun(nlen: nat, ndist: nat, cl: Lens, got: Lens, last: bool, S: Stream, pos: nat,
                                      out: seq<byte>, limit: nat)
    requires WF(Cfg(CodeLens(nlen, ndist, cl, got), last, pos, out), S) && |got| < nlen + ndist
    ensures var c, d := Cfg(CodeLens(nlen, ndist, cl, got), last, pos, out), DecodeCl(cl, S[pos..]);
            && !d.Invalid? && (d.Found? ==> d.s < 19 && 1 <= d.n <= |S| - pos)
            && (Step(c, S, limit).None? <==> d.More? || (d.s >= 16 && pos + d.n + RepeatBits(d.s) > |S|))
            && (Step(c, S, limit).Some? ==> Goes(c, S, limit, AfterCodeLen(c, S, d.s, d.n)))
  {
    hide Decode, Num, Acceptable;
    DecodeUses(CODES, cl, S[pos..]);
    ClDecodes(cl, S[pos..]);
  }

  lemma {:induction false} ClDecodes(cl: Lens, w: seq<bool>)
    requires |cl| == 19 && Acceptable(CODES, cl)
    ensures var d := DecodeCl(cl, w);
            !d.Invalid? && (d.Found? ==> d.s < 19 && 1 <= d.n <= |w|)
  {
    DecodeUses(CODES, cl, w);
  }

  /** Where symbol s of the code lengths, of n bits, leads. */
  ghost function AfterCodeLen(c: Cfg, S: Stream, s: nat, n: nat): Cfg
    requires c.ph.CodeLens? && s < 19 && c.pos + n + (if s < 16 then 0 else RepeatBits(s)) <= |S|
  {
    var CodeLens(nlen, ndist, cl, got) := c.ph;
    if s < 16 then Cfg(CodeLens(nlen, ndist, cl, got + [s]), c.last, c.pos + n, c.out)
    else if s == 16 && got == [] then Cfg(Bad(2), c.last, c.pos + n, c.out)
    else
      var r := RepeatBase(s) + Num(S, c.pos + n, RepeatBits(s));
      var v := if s == 16 then got[|got| - 1] else 0;
      Cfg(if |got| + r > nlen + ndist then Bad(0) else CodeLens(nlen, ndist, cl, got + Repeat(v, r)), c.last,
          c.pos + n + RepeatBits(s), c.out)
  }

  lemma {:induction false} CodesRun(nlen: nat, ndist: nat, cl: Lens, got: Lens, last: bool, S: Stream, pos: nat,
                                    out: seq<byte>, limit: nat)
    requires WF(Cfg(CodeLens(nlen, ndist, cl, got), last, pos, out), S) && |got| == nlen + ndist
    ensures var c, codes := Cfg(CodeLens(nlen, ndist, cl, got), last, pos, out), Codes(got[..nlen], got[nlen..]);
            Goes(c, S, limit, Cfg(if CodesOK(codes) then Len(codes) else Bad(0), last, pos, out))
  {
    hide CodesOK;
  }

  /** The phase that literal/length symbol s leads to. */
  function SymbolPhase(codes: Codes, s: nat): Phase {
    if s < 256 then Lit(codes, s) else if s == 256 then Type
    else if s < 286 then LenExt(codes, LenBase(s), LenExtra(s)) else Bad(0)
  }

  lemma {:induction false} LenRun(codes: Codes, last: bool, S: Stream, pos: nat, out: seq<byte>, limit: nat)
    requires WF(Cfg(Len(codes), last, pos, out), S)
    ensures var c, d := Cfg(Len(codes), last, pos, out), Decode(codes.ll, S[pos..]);
            && (Step(c, S, limit).None? <==> d.More?)
            && (d.Invalid? ==> Goes(c, S, limit, Cfg(Bad(0), last, pos + 1, out)))
            && (d.Found? ==> Goes(c, S, limit, Cfg(SymbolPhase(codes, d.s), last, pos + d.n, out)))
  {
    hide Decode;
  }

  lemma {:induction false} LenExtRun(codes: Codes, base: nat, extra: nat, last: bool, S: Stream, pos: nat,
                                     out: seq<byte>, limit: nat)
    requires WF(Cfg(LenExt(codes, base, extra), last, pos, out), S)
    ensures var c := Cfg(LenExt(codes, base, extra), last, pos, out);
            && (Step(c, S, limit).None? <==> pos + extra > |S|)
            && (pos + extra <= |S| ==>
                Goes(c, S, limit, Cfg(Dist(codes, base + Num(S, pos, extra)), last, pos + extra, out)))
  {}

  /** The phase that distance symbol s leads to. */
  function DistancePhase(codes: Codes, length: nat, s: nat): Phase {
    if s < 30 then DistExt(codes, length, DistBase(s), DistExtra(s)) else Bad(0)
  }

  lemma {:induction false} DistRun(codes: Codes, length: nat, last: bool, S: Stream, pos: nat, out: seq<byte>,
                                   limit: nat)
    requires WF(Cfg(Dist(codes, length), last, pos, out), S)
    ensures var c, d := Cfg(Dist(codes, length), last, pos, out), Decode(codes.dl, S[pos..]);
            && (Step(c, S, limit).None? <==> d.More?)
            && (d.Invalid? ==> Goes(c, S, limit, Cfg(Bad(0), last, pos + 1, out)))
            && (d.Found? ==> Goes(c, S, limit, Cfg(DistancePhase(codes, length, d.s), last, pos + d.n, out)))
  {
    hide Decode;
  }

  lemma {:induction false} DistExtRun(codes: Codes, length: nat, base: nat, extra: nat, last: bool, S: Stream,
                                      pos: nat, out: seq<byte>, limit: nat)
    requires WF(Cfg(DistExt(codes, length, base, extra), last, pos, out), S)
    ensures var c := Cfg(DistExt(codes, length, base, extra), last, pos, out);
            && (Step(c, S, limit).None? <==> pos + extra > |S|)
            && (pos + extra <= |S| ==>
                var offset := base + Num(S, pos, extra);
                Goes(c, S, limit,
                     Cfg(if offset > |out| then Bad(0) else Match(codes, length, offset), last, pos + extra, out)))
  {}

  lemma {:induction false} LitRun(codes: Codes, b: byte, last: bool, S: Stream, pos: nat, out: seq<byte>, limit: nat)
    requires WF(Cfg(Lit(codes, b), last, pos, out), S)
    ensures var c := Cfg(Lit(codes, b), last, pos, out);
            && (Step(c, S, limit).None? <==> |out| >= limit)
            && (|out| < limit ==> Goes(c, S, limit, Cfg(Len(codes), last, pos, out + [b])))
  {}

  // ---- Several steps -----------------------------------------------------------------------

  /** The bits that a decoded symbol takes. */
  function Length(d: Decoded): nat { if d.Found? then d.n else 1 }

  /** Where a decoded literal/length symbol, or the lack of one, leads. */
  function AfterLen(codes: Codes, d: Decoded): Phase {
    if d.Found? then SymbolPhase(codes, d.s) else Bad(0)
  }

  function AfterDist(codes: Codes, length: nat, d: Decoded): Phase {
    if d.Found? then DistancePhase(codes, length, d.s) else Bad(0)
  }

  /** From the extra bits of a length over a distance symbol. */
  lemma {:induction false} ToDistance(c: Cfg, S: Stream, limit: nat, pos': nat)
    requires WF(c, S) && c.ph.LenExt? && c.pos + c.ph.extra <= |S|
    requires var d := Decode(c.ph.c.dl, S[c.pos + c.ph.extra..]);
             !d.More? && pos' == c.pos + c.ph.extra + Length(d)
    ensures var length, d := c.ph.base + Num(S, c.pos, c.ph.extra), Decode(c.ph.c.dl, S[c.pos + c.ph.extra..]);
            var c' := Cfg(AfterDist(c.ph.c, length, d), c.last, pos', c.out);
            Leads(c, S, limit, c') && WF(c', S)
  {
    hide Step, Final, Decode, Num, Path;
    var length := c.ph.base + Num(S, c.pos, c.ph.extra);
    LenExtRun(c.ph.c, c.ph.base, c.ph.extra, c.last, S, c.pos, c.out, limit);
    var c1 := Cfg(Dist(c.ph.c, length), c.last, c.pos + c.ph.extra, c.out);
    GoesSteps(c, S, limit, c1);
    DistRun(c.ph.c, length, c.last, S, c1.pos, c.out, limit);
    var c2 := Cfg(AfterDist(c.ph.c, length, Decode(c.ph.c.dl, S[c1.pos..])), c.last, pos', c.out);
    GoesSteps(c1, S, limit, c2);
    Twice(c, S, limit, c1, c2);
  }

  /** From the extra bits of a distance over the whole match. */
  lemma {:induction false} ToMatch(c: Cfg, S: Stream, limit: nat)
    requires WF(c, S) && c.ph.DistExt? && c.pos + c.ph.extra <= |S|
    ensures var offset := c.ph.base + Num(S, c.pos, c.ph.extra);
      if offset > |c.out| then Leads(c, S, limit, Cfg(Bad(0), c.last, c.pos + c.ph.extra, c.out))
      else |c.out| + c.ph.length <= limit ==>
        Leads(c, S, limit, Cfg(Len(c.ph.c), c.last, c.pos + c.ph.extra, R.CopyMatch(c.out, c.ph.length, offset)))
  {
    hide Step, Final, Decode, Num, Path;
    var DistExt(codes, length, base, extra) := c.ph;
    var offset, pos := base + Num(S, c.pos, extra), c.pos + extra;
    DistExtRun(codes, length, base, extra, c.last, S, c.pos, c.out, limit);
    if offset > |c.out| {
      GoesSteps(c, S, limit, Cfg(Bad(0), c.last, pos, c.out));
    } else if |c.out| + length <= limit {
      GoesSteps(c, S, limit, Cfg(Match(codes, length, offset), c.last, pos, c.out));
      MatchRun(codes, length, offset, c.last, S, pos, c.out, limit, length);
      Twice(c, S, limit, Cfg(Match(codes, length, offset), c.last, pos, c.out),
            Cfg(Len(codes), c.last, pos, R.CopyMatch(c.out, length, offset)));
    }
  }

  /** Over a literal/length symbol. */
  lemma {:induction false} AfterSymbol(c: Cfg, S: Stream, limit: nat, pos': nat)
    requires WF(c, S) && c.ph.Len?
    requires var d := Decode(c.ph.c.ll, S[c.pos..]); !d.More? && pos' == c.pos + Length(d)
    ensures var c' := Cfg(AfterLen(c.ph.c, Decode(c.ph.c.ll, S[c.pos..])), c.last, pos', c.out);
            Leads(c, S, limit, c') && WF(c', S) && c.pos < pos'
  {
    hide Step, Final, Decode;
    var d := Decode(c.ph.c.ll, S[c.pos..]);
    LenRun(c.ph.c, c.last, S, c.pos, c.out, limit);
    GoesSteps(c, S, limit, Cfg(AfterLen(c.ph.c, d), c.last, pos', c.out));
    DecodeUses(LENS, c.ph.c.ll, S[c.pos..]);
  }

  /** A literal and its byte. */
  lemma {:induction false} ToLiteral(c: Cfg, S: Stream, limit: nat, b: byte)
    requires WF(c, S) && c.ph.Len? && |c.out| < limit
    requires var d := Decode(c.ph.c.ll, S[c.pos..]); !d.More? && AfterLen(c.ph.c, d) == Lit(c.ph.c, b)
    ensures var d := Decode(c.ph.c.ll, S[c.pos..]);
            Leads(c, S, limit, Cfg(c.ph, c.last, c.pos + Length(d), c.out + [b]))
  {
    hide Step, Final, Decode, Path;
    var d := Decode(c.ph.c.ll, S[c.pos..]);
    var c1 := Cfg(Lit(c.ph.c, b), c.last, c.pos + Length(d), c.out);
    LenRun(c.ph.c, c.last, S, c.pos, c.out, limit);
    GoesSteps(c, S, limit, c1);
    LitRun(c.ph.c, b, c.last, S, c1.pos, c.out, limit);
    GoesSteps(c1, S, limit, Cfg(c.ph, c.last, c1.pos, c.out + [b]));
    Twice(c, S, limit, c1, Cfg(c.ph, c.last, c1.pos, c.out + [b]));
  }

  lemma {:induction false} NumOfNone(S: Stream, pos: nat)
    requires pos <= |S|
    ensures Num(S, pos, 0) == 0
  {
    assert S[pos..pos] == [];
  }
}
