/** Slicing does not matter: feeding a stream piece by piece, into output pieces of
    any size, comes to the same as one call. */
module Slicing {
  import opened Bits
  import opened Canonical
  import opened Tables
  import opened Streams
  import opened Machine

  lemma {:induction false} NumMono(S: seq<bool>, T: seq<bool>, pos: nat, n: nat)
    requires S <= T && pos + n <= |S|
    ensures Num(S, pos, n) == Num(T, pos, n)
  {
    assert S[pos..pos + n] == T[pos..pos + n];
  }

  lemma {:induction false} SuffixMono(S: seq<bool>, T: seq<bool>, pos: nat)
    requires S <= T && pos <= |S|
    ensures S[pos..] <= T[pos..]
  {}

  lemma {:induction false} TypeMono(c: Cfg, S: Stream, T: Stream)
    requires WF(c, S) && c.ph.Type? && S <= T && TypeStep(c, S).Some?
    ensures TypeStep(c, T) == TypeStep(c, S)
  {
    if c.pos + 3 <= |S| { NumMono(S, T, c.pos + 1, 2); }
  }

  lemma {:induction false} StoredMono(c: Cfg, S: Stream, T: Stream)
    requires WF(c, S) && c.ph.Stored? && S <= T && StoredStep(c, S).Some?
    ensures StoredStep(c, T) == StoredStep(c, S)
  {
    if c.pos + 32 <= |S| {
      NumMono(S, T, c.pos, 16);
      NumMono(S, T, c.pos + 16, 16);
    }
  }

  lemma {:induction false} CopyMono(c: Cfg, S: Stream, l: nat, T: Stream, m: nat)
    requires WF(c, S) && c.ph.Copy? && S <= T && CopyStep(c, S, l).Some? && |CopyStep(c, S, l).value.out| <= m
    ensures CopyStep(c, T, m) == CopyStep(c, S, l)
  {
    if c.pos + 8 <= |S| { NumMono(S, T, c.pos, 8); }
  }

  lemma {:induction false} LenLensMono(c: Cfg, S: Stream, T: Stream)
    requires WF(c, S) && c.ph.LenLens? && S <= T && LenLensStep(c, S).Some?
    ensures LenLensStep(c, T) == LenLensStep(c, S)
  {
    if c.pos + 3 <= |S| { NumMono(S, T, c.pos, 3); }
  }

  lemma {:induction false} LenMono(c: Cfg, S: Stream, T: Stream)
    requires WF(c, S) && c.ph.Len? && S <= T && LenStep(c, S).Some?
    ensures LenStep(c, T) == LenStep(c, S)
  {
    SymbolMono(LENS, c.ph.c.ll, S, T, c.pos);
  }

  lemma {:induction false} LenExtMono(c: Cfg, S: Stream, T: Stream)
    requires WF(c, S) && c.ph.LenExt? && S <= T && LenExtStep(c, S).Some?
    ensures LenExtStep(c, T) == LenExtStep(c, S)
  {
    NumMono(S, T, c.pos, c.ph.extra);
  }

  lemma {:induction false} DistMono(c: Cfg, S: Stream, T: Stream)
    requires WF(c, S) && c.ph.Dist? && S <= T && DistStep(c, S).Some?
    ensures DistStep(c, T) == DistStep(c, S)
  {
    SymbolMono(DISTS, c.ph.c.dl, S, T, c.pos);
  }

  lemma {:induction false} DistExtMono(c: Cfg, S: Stream, T: Stream)
    requires WF(c, S) && c.ph.DistExt? && S <= T && DistExtStep(c, S).Some?
    ensures DistExtStep(c, T) == DistExtStep(c, S)
  {
    NumMono(S, T, c.pos, c.ph.extra);
  }

  /** A step that is taken with less input and room is taken just so with more, as
      long as there is room for what it wrote. */
  lemma {:induction false} StepMono(c: Cfg, S: Stream, l: nat, T: Stream, m: nat)
    requires WF(c, S) && S <= T && Step(c, S, l).Some? && |Step(c, S, l).value.out| <= m
    ensures WF(c, T) && Step(c, T, m) == Step(c, S, l)
  {
    match c.ph
    case Type => TypeMono(c, S, T);
    case Stored => StoredMono(c, S, T);
    case Copy(_) => CopyMono(c, S, l, T, m);
    case Table => TableMono(c, S, T);
    case LenLens(_, _, _, _) => LenLensMono(c, S, T);
    case CodeLens(_, _, _, _) => CodeLensMono(c, S, T);
    case Len(_) => LenMono(c, S, T);
    case LenExt(_, _, _) => LenExtMono(c, S, T);
    case Dist(_, _) => DistMono(c, S, T);
    case DistExt(_, _, _, _) => DistExtMono(c, S, T);
    case _ =>
  }

  lemma {:induction false} SymbolMono(kind: Kind, lens: Lens, S: seq<bool>, T: seq<bool>, pos: nat)
    requires Acceptable(kind, lens) && S <= T && pos <= |S| && !Decode(lens, S[pos..]).More?
    ensures Decode(lens, T[pos..]) == Decode(lens, S[pos..])
    ensures Decode(lens, S[pos..]).Found? ==> pos + Decode(lens, S[pos..]).n <= |S|
  {
    SuffixMono(S, T, pos);
    DecodeMono(kind, lens, S[pos..], T[pos..]);
  }

  lemma {:induction false} TableMono(c: Cfg, S: Stream, T: Stream)
    requires WF(c, S) && S <= T && TableStep(c, S).Some?
    ensures TableStep(c, T) == TableStep(c, S)
  {
    NumMono(S, T, c.pos, 5);
    NumMono(S, T, c.pos + 5, 5);
    NumMono(S, T, c.pos + 10, 4);
  }

  lemma {:induction false} CodeLensMono(c: Cfg, S: Stream, T: Stream)
    requires WF(c, S) && c.ph.CodeLens? && S <= T && CodeLensStep(c, S).Some?
    ensures CodeLensStep(c, T) == CodeLensStep(c, S)
  {
    hide Num, Decode, Acceptable;
    var CodeLens(nlen, ndist, cl, got) := c.ph;
    if |got| < nlen + ndist {
      SymbolMono(CODES, cl, S, T, c.pos);
      var d := DecodeCl(cl, S[c.pos..]);
      if d.s >= 16 { NumMono(S, T, c.pos + d.n, RepeatBits(d.s)); }
    }
  }

  /** Output only grows, and stays within the limit once something is written. */
  lemma {:induction false} FinalGrows(c: Cfg, S: Stream, limit: nat)
    requires WF(c, S)
    ensures WF(Final(c, S, limit), S) && c.out <= Final(c, S, limit).out
    ensures c.pos <= Final(c, S, limit).pos
    ensures |Final(c, S, limit).out| <= if |c.out| <= limit then limit else |c.out|
    ensures Step(Final(c, S, limit), S, limit).None?
    decreases |S| - c.pos, Left(|c.out|, limit), Rank(c.ph)
  {
    if Step(c, S, limit).Some? {
      StepKeeps(c, S, limit);
      FinalGrows(Step(c, S, limit).value, S, limit);
    }
  }

  /** Stopping for want of input or room and going on later is the same as not
      stopping. */
  lemma {:induction false} Resume(c: Cfg, S: Stream, l: nat, T: Stream, m: nat)
    requires WF(c, S) && S <= T && |Final(c, S, l).out| <= m
    ensures WF(c, T) && WF(Final(c, S, l), T)
    ensures Final(Final(c, S, l), T, m) == Final(c, T, m)
    decreases |S| - c.pos, Left(|c.out|, l), Rank(c.ph)
  {
    FinalGrows(c, S, l);
    if Step(c, S, l).Some? {
      var c' := Step(c, S, l).value;
      StepKeeps(c, S, l);
      FinalGrows(c', S, l);
      StepMono(c, S, l, T, m);
      Resume(c', S, l, T, m);
    }
  }

  // ---- Sequences of calls --------------------------------------------------------------

  /** One call of inflate: the bytes that are new, and the room for output. What an
      earlier call left over of its input is still there. */
  datatype Call = Call(bytes: seq<byte>, space: nat)

  function Input(calls: seq<Call>): seq<byte> {
    if calls == [] then [] else Input(Init(calls)) + Last(calls).bytes
  }

  function Init(calls: seq<Call>): seq<Call>
    requires calls != []
  {
    calls[..|calls| - 1]
  }

  function Last(calls: seq<Call>): Call
    requires calls != []
  {
    calls[|calls| - 1]
  }

  /** The stream that has arrived with the calls, after S. */
  ghost function Arrived(S: Stream, calls: seq<Call>): (T: Stream)
    ensures S <= T
  {
    if calls == [] then S else Arrived(S, Init(calls)) + ByteBits(Last(calls).bytes)
  }

  lemma {:induction false} ArrivedIsInput(S: Stream, calls: seq<Call>)
    ensures Arrived(S, calls) == S + ByteBits(Input(calls))
  {
    if calls == [] {
    } else {
      ArrivedIsInput(S, Init(calls));
      ByteBitsAppend(Input(Init(calls)), Last(calls).bytes);
    }
  }

  /** The configuration after the calls, starting from c with the stream S. */
  ghost function AfterCalls(c: Cfg, S: Stream, calls: seq<Call>): (r: Cfg)
    requires WF(c, S)
    ensures WF(r, Arrived(S, calls))
    decreases |calls|
  {
    if calls == [] then c
    else
      var c0 := AfterCalls(c, S, Init(calls));
      FinalGrows(c0, Arrived(S, calls), |c0.out| + Last(calls).space);
      Final(c0, Arrived(S, calls), |c0.out| + Last(calls).space)
  }

  /** The most output that the last of the calls allows for. */
  ghost function LastLimit(c: Cfg, S: Stream, calls: seq<Call>): nat
    requires WF(c, S) && calls != []
  {
    |AfterCalls(c, S, Init(calls)).out| + Last(calls).space
  }

  /** Any number of calls is one call with all of the input, and as much room as the
      output of all but the last call and the room of the last. */
  lemma {:induction false} CallsAreOne(c: Cfg, S: Stream, calls: seq<Call>)
    requires WF(c, S) && calls != []
    ensures WF(c, Arrived(S, calls))
    ensures AfterCalls(c, S, calls) == Final(c, Arrived(S, calls), LastLimit(c, S, calls))
    decreases |calls|
  {
    var init := Init(calls);
    if init == [] {
    } else {
      CallsAreOne(c, S, init);
      Resume(c, Arrived(S, init), LastLimit(c, S, init), Arrived(S, calls), LastLimit(c, S, calls));
    }
  }

  /** Two runs on the same stream, of which neither writes more than the other has room for,
      end in the same configuration. */
  lemma {:induction false} SameEnd(c: Cfg, S: Stream, l: nat, m: nat)
    requires WF(c, S) && |Final(c, S, l).out| <= m && |Final(c, S, m).out| <= l
    ensures Final(c, S, l) == Final(c, S, m)
  {
    var a, b := Final(c, S, l), Final(c, S, m);
    FinalGrows(c, S, l);
    FinalGrows(c, S, m);
    Resume(c, S, l, S, m);
    if Step(a, S, m).Some? {
      var d := Step(a, S, m).value;
      StepKeeps(a, S, m);
      FinalGrows(d, S, m);
      StepMono(a, S, m, S, l);
    }
  }

  /** The bytes that have been taken when the machine stops in f on all of S: those that
      what it has read reaches into, or all when it waits for more. */
  ghost function Consumed(f: Cfg, S: Stream): nat
    requires WF(f, S)
  {
    match f.ph
    case Bad(ahead) => Align(f.pos + ahead) / 8
    case Done => Align(f.pos) / 8
    case _ => if Step(f, S, |f.out| + 1).Some? then Align(f.pos) / 8 else |S| / 8
  }

  /** Two ways of slicing the same input end in the same configuration, with the same
      number of bytes taken, unless one of them writes more than the other has room for. */
  lemma {:induction false} SlicingDoesNotMatter(c: Cfg, S: Stream, a: seq<Call>, b: seq<Call>)
    requires WF(c, S) && a != [] && b != [] && Input(a) == Input(b)
    requires |AfterCalls(c, S, a).out| <= LastLimit(c, S, b)
    requires |AfterCalls(c, S, b).out| <= LastLimit(c, S, a)
    ensures AfterCalls(c, S, a) == AfterCalls(c, S, b)
    ensures Consumed(AfterCalls(c, S, a), Arrived(S, a)) == Consumed(AfterCalls(c, S, b), Arrived(S, b))
  {
    hide Final, Step;
    CallsAreOne(c, S, a);
    CallsAreOne(c, S, b);
    ArrivedIsInput(S, a);
    ArrivedIsInput(S, b);
    SameEnd(c, Arrived(S, a), LastLimit(c, S, a), LastLimit(c, S, b));
  }
}
