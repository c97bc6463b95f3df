/** The machine and the reference decoder agree on every bit string. */
module Reference {
  import opened Bits
  import opened Canonical
  import opened Tables
  import opened Streams
  import opened Machine
  import R = Rfc1951

  ghost predicate Stuck(c: Cfg, S: Stream, limit: nat)
    requires WF(c, S)
  {
    !Final(c, S, limit).ph.Done?
  }

  /** From c the machine gets to the end of a block with result r, if the limit lets
      it, and to no end at all if r is a failure. */
  ghost predicate Reaches(c: Cfg, S: Stream, limit: nat, r: R.Result)
    requires WF(c, S)
  {
    match r
    case Fail => Stuck(c, S, limit)
    case Ok(o, p) =>
      p <= |S| &&
      if |o| <= limit then Final(c, S, limit) == Final(Cfg(Type, c.last, p, o), S, limit)
      else Stuck(c, S, limit)
  }

  /** Reaching is unchanged by one step. */
  lemma {:induction false} OneStep(c: Cfg, S: Stream, limit: nat, c': Cfg, r: R.Result)
    requires WF(c, S) && Step(c, S, limit) == Some(c') && c.last == c'.last
    ensures WF(c', S)
    ensures Reaches(c', S, limit, r) <==> Reaches(c, S, limit, r)
    ensures Final(c, S, limit) == Final(c', S, limit)
  {
    StepKeeps(c, S, limit);
  }

  lemma {:induction false} NoStep(c: Cfg, S: Stream, limit: nat)
    requires WF(c, S) && (Step(c, S, limit).None? ==> !c.ph.Done?)
    requires Step(c, S, limit).Some? ==> Step(c, S, limit).value.ph.Bad?
    ensures Stuck(c, S, limit)
  {
    if Step(c, S, limit).Some? { StepKeeps(c, S, limit); }
  }

  // ---- Matches -----------------------------------------------------------------------

  lemma {:induction false} RunMatch(codes: Codes, length: nat, distance: nat, last: bool, S: Stream,
                                    pos: nat, out: seq<byte>, limit: nat)
    requires CodesOK(codes) && pos <= |S| && 1 <= length && 1 <= distance <= |out|
    ensures var c := Cfg(Match(codes, length, distance), last, pos, out);
            var o := R.CopyMatch(out, length, distance);
            if |o| <= limit then Final(c, S, limit) == Final(Cfg(Len(codes), last, pos, o), S, limit)
            else Stuck(c, S, limit)
    decreases length
  {
    var c := Cfg(Match(codes, length, distance), last, pos, out);
    if |out| >= limit {
      NoStep(c, S, limit);
    } else {
      var out' := out + [out[|out| - distance]];
      if length == 1 {
        assert R.CopyMatch(out', 0, distance) == out';
        OneStep(c, S, limit, Cfg(Len(codes), last, pos, out'), R.Fail);
      } else {
        OneStep(c, S, limit, Cfg(Match(codes, length - 1, distance), last, pos, out'), R.Fail);
        RunMatch(codes, length - 1, distance, last, S, pos, out', limit);
      }
    }
  }

  // ---- Compressed data -----------------------------------------------------------------

  lemma {:induction false} ThroughLiteral(codes: Codes, last: bool, S: Stream, pos: nat, out: seq<byte>, limit: nat,
                                          r: R.Result,
                       s: byte, n: nat)
    requires CodesOK(codes) && pos + n <= |S| && |out| <= limit
    requires Decode(codes.ll, S[pos..]) == Found(s, n)
    requires r.Ok? ==> |out| < |r.out| && r.pos <= |S|
    requires |out| < limit ==> Reaches(Cfg(Len(codes), last, pos + n, out + [s]), S, limit, r)
    ensures Reaches(Cfg(Len(codes), last, pos, out), S, limit, r)
  {
    hide Final, Decode, Num, LenBase, LenExtra, DistBase, DistExtra, Acceptable;
    var c, d := Cfg(Len(codes), last, pos, out), Cfg(Lit(codes, s), last, pos + n, out);
    OneStep(c, S, limit, d, r);
    if |out| >= limit {
      NoStep(d, S, limit);
    } else {
      OneStep(d, S, limit, Cfg(Len(codes), last, pos + n, out + [s]), r);
    }
  }

  lemma {:induction false} ThroughEnd(codes: Codes, last: bool, S: Stream, pos: nat, out: seq<byte>, limit: nat, n: nat)
    requires CodesOK(codes) && pos + n <= |S| && |out| <= limit
    requires Decode(codes.ll, S[pos..]) == Found(256, n)
    ensures Reaches(Cfg(Len(codes), last, pos, out), S, limit, R.Ok(out, pos + n))
  {
    hide Final, Decode, Num, LenBase, LenExtra, DistBase, DistExtra, Acceptable;
    OneStep(Cfg(Len(codes), last, pos, out), S, limit, Cfg(Type, last, pos + n, out), R.Ok(out, pos + n));
  }

  lemma {:induction false} ThroughLength(codes: Codes, last: bool, S: Stream, pos: nat, out: seq<byte>, limit: nat,
                                         r: R.Result,
                      s: nat, n: nat)
    requires CodesOK(codes) && pos + n <= |S| && 257 <= s < 286
    requires Decode(codes.ll, S[pos..]) == Found(s, n)
    requires if pos + n + LenExtra(s) > |S| then r.Fail?
             else Reaches(Cfg(Dist(codes, LenBase(s) + Num(S, pos + n, LenExtra(s))), last,
                                                 pos + n + LenExtra(s), out), S, limit, r)
    ensures Reaches(Cfg(Len(codes), last, pos, out), S, limit, r)
  {
    hide Final, Decode, Num, LenBase, LenExtra, DistBase, DistExtra, Acceptable;
    var d := Cfg(LenExt(codes, LenBase(s), LenExtra(s)), last, pos + n, out);
    OneStep(Cfg(Len(codes), last, pos, out), S, limit, d, r);
    if pos + n + LenExtra(s) > |S| {
      NoStep(d, S, limit);
    } else {
      var length := LenBase(s) + Num(S, pos + n, LenExtra(s));
      OneStep(d, S, limit, Cfg(Dist(codes, length), last, pos + n + LenExtra(s), out), r);
    }
  }

  lemma {:induction false} NoSymbol(codes: Codes, last: bool, S: Stream, pos: nat, out: seq<byte>, limit: nat)
    requires CodesOK(codes) && pos <= |S|
    requires var d := Decode(codes.ll, S[pos..]); d.Found? ==> d.s >= 286
    ensures Reaches(Cfg(Len(codes), last, pos, out), S, limit, R.Fail)
  {
    hide Final, Decode, Num, LenBase, LenExtra, DistBase, DistExtra, Acceptable;
    NoStep(Cfg(Len(codes), last, pos, out), S, limit);
  }

  lemma {:induction false} RunSymbols(codes: Codes, last: bool, S: Stream, pos: nat, out: seq<byte>, limit: nat)
    requires CodesOK(codes) && pos <= |S| && |out| <= limit
    ensures Reaches(Cfg(Len(codes), last, pos, out), S, limit, R.Symbols(codes, S, pos, out))
    decreases |S| - pos
  {
    hide Final, Step, Decode, Num, LenBase, LenExtra, DistBase, DistExtra, Acceptable;
    var r := R.Symbols(codes, S, pos, out);
    DecodeUses(LENS, codes.ll, S[pos..]);
    match Decode(codes.ll, S[pos..])
    case Found(s, n) =>
      if s < 256 {
        if |out| < limit { RunSymbols(codes, last, S, pos + n, out + [s], limit); }
        ThroughLiteral(codes, last, S, pos, out, limit, r, s, n);
      } else if s == 256 {
        ThroughEnd(codes, last, S, pos, out, limit, n);
      } else if s >= 286 {
        NoSymbol(codes, last, S, pos, out, limit);
      } else {
        var p := pos + n + LenExtra(s);
        if p <= |S| { RunPair(codes, LenBase(s) + Num(S, pos + n, LenExtra(s)), last, S, p, out, limit); }
        ThroughLength(codes, last, S, pos, out, limit, r, s, n);
      }
    case _ => NoSymbol(codes, last, S, pos, out, limit);
  }

  lemma {:induction false} ThroughDistance(codes: Codes, length: nat, last: bool, S: Stream, pos: nat, out: seq<byte>,
                                           limit: nat,
                        r: R.Result, s: nat, n: nat, distance: nat)
    requires CodesOK(codes) && s < 30 && pos + n + DistExtra(s) <= |S| && |out| <= limit && length >= 3
    requires Decode(codes.dl, S[pos..]) == Found(s, n)
    requires distance == DistBase(s) + Num(S, pos + n, DistExtra(s)) <= |out|
    requires var o := R.CopyMatch(out, length, distance);
             if |o| <= limit then Reaches(Cfg(Len(codes), last, pos + n + DistExtra(s), o), S, limit, r)
             else r.Ok? ==> |o| <= |r.out| && r.pos <= |S|
    ensures Reaches(Cfg(Dist(codes, length), last, pos, out), S, limit, r)
  {
    hide Final, Decode, Num, LenBase, LenExtra, DistBase, DistExtra, Acceptable;
    var p := pos + n + DistExtra(s);
    var d := Cfg(DistExt(codes, length, DistBase(s), DistExtra(s)), last, pos + n, out);
    OneStep(Cfg(Dist(codes, length), last, pos, out), S, limit, d, r);
    OneStep(d, S, limit, Cfg(Match(codes, length, distance), last, p, out), r);
    RunMatch(codes, length, distance, last, S, p, out, limit);
  }

  lemma {:induction false} NoDistance(codes: Codes, length: nat, last: bool, S: Stream, pos: nat, out: seq<byte>,
                                      limit: nat)
    requires CodesOK(codes) && pos <= |S| && length >= 3
    requires var d := Decode(codes.dl, S[pos..]);
             d.Found? && d.s < 30 ==>
               && pos + d.n <= |S|
               && (pos + d.n + DistExtra(d.s) > |S| || DistBase(d.s) + Num(S, pos + d.n, DistExtra(d.s)) > |out|)
    ensures Reaches(Cfg(Dist(codes, length), last, pos, out), S, limit, R.Fail)
  {
    hide Final, Decode, Num, LenBase, LenExtra, DistBase, DistExtra, Acceptable;
    var c := Cfg(Dist(codes, length), last, pos, out);
    var d := Decode(codes.dl, S[pos..]);
    if d.Found? && d.s < 30 {
      var e := Cfg(DistExt(codes, length, DistBase(d.s), DistExtra(d.s)), last, pos + d.n, out);
      OneStep(c, S, limit, e, R.Fail);
      NoStep(e, S, limit);
    } else {
      NoStep(c, S, limit);
    }
  }

  lemma {:induction false} RunPair(codes: Codes, length: nat, last: bool, S: Stream, pos: nat, out: seq<byte>,
                                   limit: nat)
    requires CodesOK(codes) && pos <= |S| && |out| <= limit && length >= 3
    ensures Reaches(Cfg(Dist(codes, length), last, pos, out), S, limit, R.Pair(codes, S, pos, out, length))
    decreases |S| - pos
  {
    hide Final, Step, Decode, Num, LenBase, LenExtra, DistBase, DistExtra, Acceptable;
    var r := R.Pair(codes, S, pos, out, length);
    DecodeUses(DISTS, codes.dl, S[pos..]);
    match Decode(codes.dl, S[pos..])
    case Found(s, n) =>
      if s >= 30 || pos + n + DistExtra(s) > |S| || DistBase(s) + Num(S, pos + n, DistExtra(s)) > |out| {
        NoDistance(codes, length, last, S, pos, out, limit);
      } else {
        var distance := DistBase(s) + Num(S, pos + n, DistExtra(s));
        var o := R.CopyMatch(out, length, distance);
        if |o| <= limit { RunSymbols(codes, last, S, pos + n + DistExtra(s), o, limit); }
        ThroughDistance(codes, length, last, S, pos, out, limit, r, s, n, distance);
      }
    case _ => NoDistance(codes, length, last, S, pos, out, limit);
  }

  // ---- Stored blocks -------------------------------------------------------------------

  lemma {:induction false} RunCopy(n: nat, last: bool, S: Stream, pos: nat, out: seq<byte>, limit: nat)
    requires pos <= |S| && |out| <= limit
    ensures Reaches(Cfg(Copy(n), last, pos, out), S, limit,
                    if pos + 8 * n <= |S| then R.Ok(out + R.BytesAt(S, pos, n), pos + 8 * n) else R.Fail)
    decreases n
  {
    var c := Cfg(Copy(n), last, pos, out);
    var r := if pos + 8 * n <= |S| then R.Ok(out + R.BytesAt(S, pos, n), pos + 8 * n) else R.Fail;
    if n == 0 {
      assert out + [] == out;
      OneStep(c, S, limit, Cfg(Type, last, pos, out), r);
    } else if pos + 8 > |S| || |out| >= limit {
      NoStep(c, S, limit);
    } else {
      NumBound(S, pos, 8);
      Pow2Values();
      var o := out + [Num(S, pos, 8)];
      OneStep(c, S, limit, Cfg(Copy(n - 1), last, pos + 8, o), r);
      RunCopy(n - 1, last, S, pos + 8, o, limit);
      if pos + 8 * n <= |S| {
        assert o + R.BytesAt(S, pos + 8, n - 1) == out + R.BytesAt(S, pos, n);
      }
    }
  }

  lemma {:induction false} RunStored(last: bool, S: Stream, pos: nat, out: seq<byte>, limit: nat)
    requires pos <= |S| && |out| <= limit
    ensures Reaches(Cfg(Stored, last, pos, out), S, limit, R.StoredBlock(S, pos, out))
  {
    hide Final, Num, R.BytesAt;
    var p := Align(pos);
    var c, d := Cfg(Stored, last, pos, out), Cfg(Stored, last, p, out);
    var r := R.StoredBlock(S, pos, out);
    if pos % 8 != 0 { OneStep(c, S, limit, d, r); }
    if p + 32 > |S| || Num(S, p, 16) + Num(S, p + 16, 16) != 65535 {
      NoStep(d, S, limit);
    } else {
      OneStep(d, S, limit, Cfg(Copy(Num(S, p, 16)), last, p + 32, out), r);
      RunCopy(Num(S, p, 16), last, S, p + 32, out, limit);
    }
  }

  // ---- Dynamic codes --------------------------------------------------------------------

  /** One step, for configurations that differ in how far a header has been read. */
  lemma {:induction false} StepTo(c: Cfg, S: Stream, limit: nat, c': Cfg)
    requires WF(c, S) && Step(c, S, limit) == Some(c')
    ensures WF(c', S) && Final(c, S, limit) == Final(c', S, limit)
  {
    StepKeeps(c, S, limit);
  }

  lemma {:induction false} ThroughClNumber(nlen: nat, ndist: nat, ncode: nat, got: Lens, last: bool, S: Stream,
                                           pos: nat,
                        out: seq<byte>, limit: nat)
    requires nlen <= 286 && ndist <= 30 && |got| < ncode <= 19 && pos <= |S|
    ensures var c := Cfg(LenLens(nlen, ndist, ncode, got), last, pos, out);
            if pos + 3 > |S| then Stuck(c, S, limit)
            else Num(S, pos, 3) <= 7 && Final(c, S, limit)
                   == Final(Cfg(LenLens(nlen, ndist, ncode, got + [Num(S, pos, 3)]), last, pos + 3, out), S, limit)
  {
    var c := Cfg(LenLens(nlen, ndist, ncode, got), last, pos, out);
    if pos + 3 > |S| {
      NoStep(c, S, limit);
    } else {
      NumBound(S, pos, 3);
      Pow2Values();
      StepTo(c, S, limit, Cfg(LenLens(nlen, ndist, ncode, got + [Num(S, pos, 3)]), last, pos + 3, out));
    }
  }

  lemma {:induction false} RunClNumbers(nlen: nat, ndist: nat, ncode: nat, got: Lens, last: bool, S: Stream,
                                        pos: nat, out: seq<byte>, limit: nat)
    requires nlen <= 286 && ndist <= 30 && |got| <= ncode <= 19 && pos <= |S|
    ensures var c := Cfg(LenLens(nlen, ndist, ncode, got), last, pos, out);
            var n := ncode - |got|;
            if pos + 3 * n > |S| then Stuck(c, S, limit)
            else Final(c, S, limit) == Final(Cfg(LenLens(nlen, ndist, ncode, got + R.ClNumbers(S, pos, n)), last,
                                                 pos + 3 * n, out), S, limit)
    decreases ncode - |got|
  {
    hide Final, Step, Decode, Num, LenBase, LenExtra, DistBase, DistExtra, Acceptable;
    var n := ncode - |got|;
    if n == 0 {
      assert got + R.ClNumbers(S, pos, 0) == got;
    } else {
      ThroughClNumber(nlen, ndist, ncode, got, last, S, pos, out, limit);
      if pos + 3 <= |S| {
        var got' := got + [Num(S, pos, 3)];
        RunClNumbers(nlen, ndist, ncode, got', last, S, pos + 3, out, limit);
        if pos + 3 * n <= |S| {
          assert got' + R.ClNumbers(S, pos + 3, n - 1) == got + R.ClNumbers(S, pos, n);
        }
      }
    }
  }

  /** One symbol of the code length code: what the reference decoder reads next. */
  ghost function OneLength(cl: Lens, S: Stream, pos: nat, total: nat, got: Lens): (r: R.LensResult)
    requires Acceptable(CODES, cl) && |cl| == 19 && pos <= |S| && |got| < total
    ensures r.Lens? ==> pos < r.pos <= |S| && |r.lens| <= total
  {
    DecodeUses(CODES, cl, S[pos..]);
    match DecodeCl(cl, S[pos..])
    case Found(s, n) =>
      if s < 16 then R.Lens(got + [s], pos + n)
      else if pos + n + RepeatBits(s) > |S| || (s == 16 && got == []) then R.NoLens
      else
        var r := RepeatBase(s) + Num(S, pos + n, RepeatBits(s));
        if |got| + r > total then R.NoLens
        else R.Lens(got + Repeat(if s == 16 then got[|got| - 1] else 0, r), pos + n + RepeatBits(s))
    case _ => R.NoLens
  }

  lemma {:induction false} LengthsByOne(cl: Lens, S: Stream, pos: nat, total: nat, got: Lens)
    requires Acceptable(CODES, cl) && |cl| == 19 && pos <= |S| && |got| < total
    ensures R.CodeLengths(cl, S, pos, total, got) ==
      match OneLength(cl, S, pos, total, got)
      case NoLens => R.NoLens
      case Lens(got', p) => R.CodeLengths(cl, S, p, total, got')
  {
    DecodeUses(CODES, cl, S[pos..]);
  }

  lemma {:induction false} ThroughLengthSymbol(nlen: nat, ndist: nat, cl: Lens, got: Lens, last: bool, S: Stream,
                                               pos: nat,
                            out: seq<byte>, limit: nat)
    requires nlen <= 286 && ndist <= 30 && |cl| == 19 && Acceptable(CODES, cl)
    requires |got| < nlen + ndist && pos <= |S|
    ensures var c := Cfg(CodeLens(nlen, ndist, cl, got), last, pos, out);
            match OneLength(cl, S, pos, nlen + ndist, got)
            case NoLens => Stuck(c, S, limit)
            case Lens(got', p) =>
              Final(c, S, limit) == Final(Cfg(CodeLens(nlen, ndist, cl, got'), last, p, out), S, limit)
  {
    hide Num, Decode, Acceptable, Final;
    var c := Cfg(CodeLens(nlen, ndist, cl, got), last, pos, out);
    match OneLength(cl, S, pos, nlen + ndist, got)
    case NoLens => NoStep(c, S, limit);
    case Lens(got', p) => StepTo(c, S, limit, Cfg(CodeLens(nlen, ndist, cl, got'), last, p, out));
  }

  lemma {:induction false} RunCodeLengths(nlen: nat, ndist: nat, cl: Lens, got: Lens, last: bool, S: Stream,
                                          pos: nat, out: seq<byte>, limit: nat)
    requires nlen <= 286 && ndist <= 30 && |cl| == 19 && Acceptable(CODES, cl)
    requires |got| <= nlen + ndist && pos <= |S|
    ensures var c := Cfg(CodeLens(nlen, ndist, cl, got), last, pos, out);
            match R.CodeLengths(cl, S, pos, nlen + ndist, got)
            case NoLens => Stuck(c, S, limit)
            case Lens(lens, p) =>
              Final(c, S, limit) == Final(Cfg(CodeLens(nlen, ndist, cl, lens), last, p, out), S, limit)
    decreases |S| - pos
  {
    hide Final, Step, Decode, Num, LenBase, LenExtra, DistBase, DistExtra, Acceptable;
    if |got| < nlen + ndist {
      LengthsByOne(cl, S, pos, nlen + ndist, got);
      ThroughLengthSymbol(nlen, ndist, cl, got, last, S, pos, out, limit);
      match OneLength(cl, S, pos, nlen + ndist, got)
      case NoLens =>
      case Lens(got', p) => RunCodeLengths(nlen, ndist, cl, got', last, S, p, out, limit);
    }
  }

  lemma {:induction false} ThroughTable(last: bool, S: Stream, pos: nat, out: seq<byte>, limit: nat)
    requires pos <= |S|
    ensures var c := Cfg(Table, last, pos, out);
            if pos + 14 > |S| then Stuck(c, S, limit)
            else
              var nlen, ndist, ncode := Num(S, pos, 5) + 257, Num(S, pos + 5, 5) + 1, Num(S, pos + 10, 4) + 4;
              if nlen > 286 || ndist > 30 then Stuck(c, S, limit)
              else ncode <= 19 && Final(c, S, limit)
                     == Final(Cfg(LenLens(nlen, ndist, ncode, []), last, pos + 14, out), S, limit)
  {
    var c := Cfg(Table, last, pos, out);
    if pos + 14 > |S| {
      NoStep(c, S, limit);
    } else {
      NumBound(S, pos + 10, 4);
      Pow2Values();
      var nlen, ndist, ncode := Num(S, pos, 5) + 257, Num(S, pos + 5, 5) + 1, Num(S, pos + 10, 4) + 4;
      if nlen > 286 || ndist > 30 {
        NoStep(c, S, limit);
      } else {
        StepTo(c, S, limit, Cfg(LenLens(nlen, ndist, ncode, []), last, pos + 14, out));
      }
    }
  }

  lemma {:induction false} RunDynamic(last: bool, S: Stream, pos: nat, out: seq<byte>, limit: nat)
    requires pos <= |S| && |out| <= limit
    ensures Reaches(Cfg(Table, last, pos, out), S, limit, R.DynamicBlock(S, pos, out))
  {
    hide Final, Step, Decode, Num, LenBase, LenExtra, DistBase, DistExtra, Acceptable;
    ThroughTable(last, S, pos, out, limit);
    if pos + 14 <= |S| {
      var nlen, ndist, ncode := Num(S, pos, 5) + 257, Num(S, pos + 5, 5) + 1, Num(S, pos + 10, 4) + 4;
      if nlen <= 286 && ndist <= 30 {
        RunClNumbers(nlen, ndist, ncode, [], last, S, pos + 14, out, limit);
        var p := pos + 14 + 3 * ncode;
        if p <= |S| {
          var got := R.ClNumbers(S, pos + 14, ncode);
          assert [] + got == got;
          RunLengths(nlen, ndist, ncode, got, last, S, p, out, limit);
        }
      }
    }
  }

  /** From the code length code to the end of the block. */
  lemma {:induction false} RunLengths(nlen: nat, ndist: nat, ncode: nat, got: Lens, last: bool, S: Stream, p: nat,
                                      out: seq<byte>,
                   limit: nat)
    requires nlen <= 286 && ndist <= 30 && |got| == ncode <= 19 && p <= |S| && |out| <= limit
    ensures Reaches(Cfg(LenLens(nlen, ndist, ncode, got), last, p, out), S, limit,
      var cl := ClLens(got);
      if !Acceptable(CODES, cl) then R.Fail
      else match R.CodeLengths(cl, S, p, nlen + ndist, [])
        case NoLens => R.Fail
        case Lens(lens, q) =>
          var c := Codes(lens[..nlen], lens[nlen..]);
          if CodesOK(c) then R.Symbols(c, S, q, out) else R.Fail)
  {
    var c, cl := Cfg(LenLens(nlen, ndist, ncode, got), last, p, out), ClLens(got);
    if !Acceptable(CODES, cl) {
      NoStep(c, S, limit);
    } else {
      var d := Cfg(CodeLens(nlen, ndist, cl, []), last, p, out);
      OneStep(c, S, limit, d, R.Fail);
      RunCodeLengths(nlen, ndist, cl, [], last, S, p, out, limit);
      match R.CodeLengths(cl, S, p, nlen + ndist, [])
      case NoLens =>
      case Lens(lens, q) =>
        var e, codes := Cfg(CodeLens(nlen, ndist, cl, lens), last, q, out), Codes(lens[..nlen], lens[nlen..]);
        if CodesOK(codes) {
          OneStep(e, S, limit, Cfg(Len(codes), last, q, out), R.Fail);
          RunSymbols(codes, last, S, q, out, limit);
        } else {
          NoStep(e, S, limit);
        }
    }
  }

  // ---- Blocks ----------------------------------------------------------------------------

  lemma {:induction false} RunBlock(btype: nat, last: bool, S: Stream, pos: nat, out: seq<byte>, limit: nat)
    requires btype < 3 && pos <= |S| && |out| <= limit
    ensures PhaseOK(FirstPhase(btype), out)
    ensures Reaches(Cfg(FirstPhase(btype), last, pos, out), S, limit, R.Block(btype, S, pos, out))
  {
    FixedOK();
    match btype
    case 0 => RunStored(last, S, pos, out, limit);
    case 1 => RunSymbols(Fixed(), last, S, pos, out, limit);
    case _ => RunDynamic(last, S, pos, out, limit);
  }

  function FirstPhase(btype: nat): Phase {
    match btype case 0 => Stored case 1 => Len(Fixed()) case 2 => Table case _ => Bad(0)
  }

  /** The machine finishes exactly when the reference decoder succeeds and there is
      room for its result, and then with that result. */
  lemma {:induction false} RunBlocks(S: Stream, pos: nat, out: seq<byte>, limit: nat)
    requires pos <= |S| && |out| <= limit
    ensures var f := Final(Cfg(Type, false, pos, out), S, limit);
            match R.Blocks(S, pos, out)
            case Fail => !f.ph.Done?
            case Ok(o, p) => if |o| <= limit then f == Cfg(Done, true, p, o) else !f.ph.Done?
    decreases |S| - pos
  {
    hide R.StoredBlock, R.DynamicBlock, R.Symbols, Num;
    var c := Cfg(Type, false, pos, out);
    if pos + 3 > |S| {
      NoStep(c, S, limit);
      return;
    }
    var btype, last := Num(S, pos + 1, 2), S[pos];
    if btype >= 3 {
      NoStep(c, S, limit);
      return;
    }
    RunBlock(btype, last, S, pos + 3, out, limit);
    StepTo(c, S, limit, Cfg(FirstPhase(btype), last, pos + 3, out));
    match R.Block(btype, S, pos + 3, out)
    case Fail =>
    case Ok(o, p) =>
      if last {
        if |o| <= limit { RunLast(S, p, o, limit); }
      } else {
        BlocksGrow(S, p, o);
        if |o| <= limit { RunBlocks(S, p, o, limit); }
      }
  }

  lemma {:induction false} RunLast(S: Stream, pos: nat, out: seq<byte>, limit: nat)
    requires pos <= |S|
    ensures Final(Cfg(Type, true, pos, out), S, limit) == Cfg(Done, true, Align(pos), out)
  {
    var d := Cfg(Done, true, Align(pos), out);
    StepTo(Cfg(Type, true, pos, out), S, limit, d);
    assert Step(d, S, limit).None?;
  }

  lemma {:induction false} BlocksGrow(S: Stream, pos: nat, out: seq<byte>)
    requires pos <= |S|
    ensures var r := R.Blocks(S, pos, out); r.Ok? ==> |out| <= |r.out|
    decreases |S| - pos
  {
    if pos + 3 <= |S| {
      match R.Block(Num(S, pos + 1, 2), S, pos + 3, out)
      case Fail =>
      case Ok(o, p) => if !S[pos] { BlocksGrow(S, p, o); }
    }
  }

  const START: Cfg := Cfg(Type, false, 0, [])

  /** For every bit string: the machine, given room for it, ends with exactly the
      output of the reference decoder, and where that ends; and if the reference
      decoder fails then the machine never finishes, whatever the room. */
  lemma {:induction false} MachineIsReference(S: Stream, limit: nat)
    ensures WF(START, S)
    ensures var f := Final(START, S, limit);
            match R.Blocks(S, 0, [])
            case Fail => !f.ph.Done?
            case Ok(o, p) => if |o| <= limit then f == Cfg(Done, true, p, o) else !f.ph.Done?
  {
    RunBlocks(S, 0, [], limit);
  }
}
