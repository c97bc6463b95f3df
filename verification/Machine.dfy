/** The deflate decoder as a machine over bits: one step per decision of inflate().
    A configuration has no bit buffer, no tables and no window; it knows how many
    bits of the stream are behind it and what has been written.

    Stream S holds the bits available so far; limit is the most output there is
    room for. A step that needs more of either is not taken. */
module Machine {
  import opened Bits
  import opened Canonical
  import opened Tables
  import opened Streams

  // ---- Codes -----------------------------------------------------------------------

  datatype Codes = Codes(ll: Lens, dl: Lens)

  ghost predicate CodesOK(c: Codes) {
    && |c.ll| <= Limit(LENS) && |c.dl| <= Limit(DISTS)
    && Acceptable(LENS, c.ll) && Acceptable(DISTS, c.dl)
  }

  /** The fixed codes of section 3.2.6 of RFC 1951. */
  function FixedLengths(): (lens: Lens)
    ensures |lens| == 288
  {
    seq(288, i => if i < 144 then 8 else if i < 256 then 9 else if i < 280 then 7 else 8)
  }

  function FixedDistances(): (lens: Lens)
    ensures |lens| == 32
  {
    seq(32, _ => 5)
  }

  function Fixed(): Codes { Codes(FixedLengths(), FixedDistances()) }

  /** The order in which code length code lengths are sent (section 3.2.7). */
  const ORDER: seq<nat> := [16, 17, 18, 0, 8, 7, 9, 6, 10, 5, 11, 4, 12, 3, 13, 2, 14, 1, 15]
  /** Where in that order each symbol is. */
  const RANK: seq<nat> := [3, 17, 15, 13, 11, 9, 7, 5, 4, 6, 8, 10, 12, 14, 16, 18, 0, 1, 2]

  lemma {:induction false} OrderRank(i: nat)
    requires i < 19
    ensures ORDER[i] < 19 && RANK[i] < 19 && RANK[ORDER[i]] == i && ORDER[RANK[i]] == i
  {}

  function OrderAt(i: nat): (k: nat)
    requires i < 19
    ensures k < 19
  {
    OrderRank(i); ORDER[i]
  }

  /** The order is 16, 17, 18, 0, and then outwards from 8: 8, 7, 9, 6, 10 and so on to 15. */
  lemma {:induction false} OrderIsOutwards(i: nat)
    requires i < 19
    ensures OrderAt(i) == if i < 3 then 16 + i else if i == 3 then 0
                          else if i % 2 == 0 then 8 + (i - 4) / 2 else 8 - (i - 3) / 2
  {}

  lemma {:induction false} OrderInjective(i: nat, j: nat)
    requires i < 19 && j < 19 && OrderAt(i) == OrderAt(j)
    ensures i == j
  {
    OrderRank(i);
    OrderRank(j);
  }

  /** The code length code whose lengths got were sent in that order. */
  function ClLens(got: Lens): (cl: Lens)
    ensures |cl| == 19
  {
    seq(19, s requires 0 <= s < 19 => if RANK[s] < |got| then got[RANK[s]] else 0)
  }

  // ---- Configurations --------------------------------------------------------------

  datatype Phase =
    | Type | Stored | Copy(n: nat) | Table
    | LenLens(nlen: nat, ndist: nat, ncode: nat, got: Lens)
    | CodeLens(nlen: nat, ndist: nat, cl: Lens, got: Lens)
    | Len(c: Codes) | LenExt(c: Codes, base: nat, extra: nat)
    | Dist(c: Codes, length: nat) | DistExt(c: Codes, length: nat, base: nat, extra: nat)
    | Match(c: Codes, length: nat, offset: nat) | Lit(c: Codes, b: byte)
    | Done | Bad(ahead: nat)

  datatype Cfg = Cfg(ph: Phase, last: bool, pos: nat, out: seq<byte>)

  ghost predicate PhaseOK(ph: Phase, out: seq<byte>) {
    match ph
    case LenLens(nlen, ndist, ncode, got) => nlen <= 286 && ndist <= 30 && |got| <= ncode <= 19
    case CodeLens(nlen, ndist, cl, got) =>
      nlen <= 286 && ndist <= 30 && |cl| == 19 && Acceptable(CODES, cl) && |got| <= nlen + ndist
    case Len(c) => CodesOK(c)
    case LenExt(c, base, extra) => CodesOK(c) && base >= 3
    case Dist(c, length) => CodesOK(c) && length >= 3
    case DistExt(c, length, base, extra) => CodesOK(c) && length >= 3 && base >= 1
    case Match(c, length, offset) => CodesOK(c) && length >= 1 && 1 <= offset <= |out|
    case Lit(c, b) => CodesOK(c)
    case _ => true
  }

  ghost predicate WF(c: Cfg, S: Stream) {
    c.pos <= |S| && PhaseOK(c.ph, c.out)
  }

  // ---- Steps -----------------------------------------------------------------------

  /** The symbol of the code length code at the head of w. A code length code without
      symbols decodes as length 0 after each bit, as inflate() takes it. */
  ghost function DecodeCl(cl: Lens, w: seq<bool>): Decoded {
    match Decode(cl, w)
    case Invalid => Found(0, 1)
    case d => d
  }

  /** Extra bits and smallest count of the repeat symbols 16, 17 and 18. */
  function RepeatBits(s: nat): nat { if s == 16 then 2 else if s == 17 then 3 else 7 }
  function RepeatBase(s: nat): nat { if s <= 17 then 3 else 11 }

  /** What the repeats cover: 16 repeats the length before 3 to 6 times; 17 and 18 repeat zero
      3 to 138 times, without gap or overlap. */
  lemma {:induction false} RepeatsTile()
    ensures RepeatBase(16) == 3 && RepeatBase(16) + Pow2(RepeatBits(16)) == 7
    ensures RepeatBase(17) == 3 && RepeatBase(17) + Pow2(RepeatBits(17)) == RepeatBase(18)
    ensures RepeatBase(18) == 11 && RepeatBase(18) + Pow2(RepeatBits(18)) == 139
  {
    Pow2Values();
  }

  function Repeat(v: nat, n: nat): (r: seq<nat>)
    ensures |r| == n && forall i :: 0 <= i < n ==> r[i] == v
  {
    seq(n, _ => v)
  }

  ghost function TypeStep(c: Cfg, S: Stream): Option<Cfg>
    requires WF(c, S)
  {
    if c.last then Some(Cfg(Done, true, Align(c.pos), c.out))
    else if c.pos + 3 > |S| then None
    else
      var ph := match Num(S, c.pos + 1, 2) case 0 => Stored case 1 => Len(Fixed()) case 2 => Table case _ => Bad(0);
      Some(Cfg(ph, S[c.pos], c.pos + 3, c.out))
  }

  ghost function StoredStep(c: Cfg, S: Stream): Option<Cfg>
    requires WF(c, S)
  {
    if c.pos % 8 != 0 then Some(c.(pos := Align(c.pos)))
    else if c.pos + 32 > |S| then None
    else if Num(S, c.pos, 16) + Num(S, c.pos + 16, 16) != 65535 then Some(c.(ph := Bad(32)))
    else Some(c.(ph := Copy(Num(S, c.pos, 16)), pos := c.pos + 32))
  }

  ghost function CopyStep(c: Cfg, S: Stream, limit: nat): Option<Cfg>
    requires WF(c, S) && c.ph.Copy?
  {
    if c.ph.n == 0 then Some(c.(ph := Type))
    else if c.pos + 8 > |S| || |c.out| >= limit then None
    else
      NumBound(S, c.pos, 8);
      Pow2Values();
      Some(c.(ph := Copy(c.ph.n - 1), pos := c.pos + 8, out := c.out + [Num(S, c.pos, 8)]))
  }

  ghost function TableStep(c: Cfg, S: Stream): Option<Cfg>
    requires WF(c, S)
  {
    if c.pos + 14 > |S| then None
    else
      var nlen, ndist := Num(S, c.pos, 5) + 257, Num(S, c.pos + 5, 5) + 1;
      var ph := if nlen > 286 || ndist > 30 then Bad(0) else LenLens(nlen, ndist, Num(S, c.pos + 10, 4) + 4, []);
      Some(c.(ph := ph, pos := c.pos + 14))
  }

  ghost function LenLensStep(c: Cfg, S: Stream): Option<Cfg>
    requires WF(c, S) && c.ph.LenLens?
  {
    var LenLens(nlen, ndist, ncode, got) := c.ph;
    if |got| < ncode then
      if c.pos + 3 > |S| then None
      else
        NumBound(S, c.pos, 3);
        Pow2Values();
        Some(c.(ph := LenLens(nlen, ndist, ncode, got + [Num(S, c.pos, 3)]), pos := c.pos + 3))
    else
      var cl := ClLens(got);
      Some(c.(ph := if Acceptable(CODES, cl) then CodeLens(nlen, ndist, cl, []) else Bad(0)))
  }

  ghost function CodeLensStep(c: Cfg, S: Stream): Option<Cfg>
    requires WF(c, S) && c.ph.CodeLens?
  {
    var CodeLens(nlen, ndist, cl, got) := c.ph;
    if |got| == nlen + ndist then
      var codes := Codes(got[..nlen], got[nlen..]);
      Some(c.(ph := if CodesOK(codes) then Len(codes) else Bad(0)))
    else match DecodeCl(cl, S[c.pos..])
      case More => None
      case Invalid => None
      case Found(s, n) =>
        if s < 16 then Some(c.(ph := CodeLens(nlen, ndist, cl, got + [s]), pos := c.pos + n))
        else
          var k := RepeatBits(s);
          if c.pos + n + k > |S| then None
          else if s == 16 && got == [] then Some(c.(ph := Bad(2), pos := c.pos + n))
          else
            var r := RepeatBase(s) + Num(S, c.pos + n, k);
            var v := if s == 16 then got[|got| - 1] else 0;
            var ph := if |got| + r > nlen + ndist then Bad(0)
                      else CodeLens(nlen, ndist, cl, got + Repeat(v, r));
            Some(c.(ph := ph, pos := c.pos + n + k))
  }

  ghost function LenStep(c: Cfg, S: Stream): Option<Cfg>
    requires WF(c, S) && c.ph.Len?
  {
    var codes := c.ph.c;
    match Decode(codes.ll, S[c.pos..])
    case More => None
    case Invalid => Some(c.(ph := Bad(0), pos := c.pos + 1))
    case Found(s, n) =>
      var ph := if s < 256 then Lit(codes, s) else if s == 256 then Type
                else if s < 286 then LenExt(codes, LenBase(s), LenExtra(s)) else Bad(0);
      Some(c.(ph := ph, pos := c.pos + n))
  }

  ghost function LenExtStep(c: Cfg, S: Stream): Option<Cfg>
    requires WF(c, S) && c.ph.LenExt?
  {
    var LenExt(codes, base, extra) := c.ph;
    if c.pos + extra > |S| then None
    else Some(c.(ph := Dist(codes, base + Num(S, c.pos, extra)), pos := c.pos + extra))
  }

  ghost function DistStep(c: Cfg, S: Stream): Option<Cfg>
    requires WF(c, S) && c.ph.Dist?
  {
    var Dist(codes, length) := c.ph;
    match Decode(codes.dl, S[c.pos..])
    case More => None
    case Invalid => Some(c.(ph := Bad(0), pos := c.pos + 1))
    case Found(s, n) =>
      var ph := if s < 30 then DistExt(codes, length, DistBase(s), DistExtra(s)) else Bad(0);
      Some(c.(ph := ph, pos := c.pos + n))
  }

  ghost function DistExtStep(c: Cfg, S: Stream): Option<Cfg>
    requires WF(c, S) && c.ph.DistExt?
  {
    var DistExt(codes, length, base, extra) := c.ph;
    if c.pos + extra > |S| then None
    else
      var offset := base + Num(S, c.pos, extra);
      Some(c.(ph := if offset > |c.out| then Bad(0) else Match(codes, length, offset), pos := c.pos + extra))
  }

  ghost function MatchStep(c: Cfg, limit: nat): Option<Cfg>
    requires c.ph.Match? && PhaseOK(c.ph, c.out)
  {
    var Match(codes, length, offset) := c.ph;
    if |c.out| >= limit then None
    else Some(c.(ph := if length == 1 then Len(codes) else Match(codes, length - 1, offset),
                 out := c.out + [c.out[|c.out| - offset]]))
  }

  ghost function Step(c: Cfg, S: Stream, limit: nat): Option<Cfg>
    requires WF(c, S)
  {
    match c.ph
    case Type => TypeStep(c, S)
    case Stored => StoredStep(c, S)
    case Copy(_) => CopyStep(c, S, limit)
    case Table => TableStep(c, S)
    case LenLens(_, _, _, _) => LenLensStep(c, S)
    case CodeLens(_, _, _, _) => CodeLensStep(c, S)
    case Len(_) => LenStep(c, S)
    case LenExt(_, _, _) => LenExtStep(c, S)
    case Dist(_, _) => DistStep(c, S)
    case DistExt(_, _, _, _) => DistExtStep(c, S)
    case Match(_, _, _) => MatchStep(c, limit)
    case Lit(codes, b) => if |c.out| >= limit then None else Some(c.(ph := Len(codes), out := c.out + [b]))
    case _ => None
  }

  // ---- What every step keeps ---------------------------------------------------------

  /** What decreases when a step takes no bits and writes nothing. */
  function Rank(ph: Phase): nat {
    match ph
    case LenLens(_, _, _, _) => 6
    case CodeLens(_, _, _, _) => 5
    case LenExt(_, _, _) => 3
    case Dist(_, _) => 2
    case DistExt(_, _, _, _) => 2
    case Copy(_) => 2
    case Match(_, _, _) => 1
    case Type => 1
    case Stored => 1
    case _ => 0
  }

  ghost predicate Progress(c: Cfg, c': Cfg) {
    && c.pos <= c'.pos && c.out <= c'.out && |c'.out| <= |c.out| + 1
    && (c.pos < c'.pos || |c.out| < |c'.out| || Rank(c'.ph) < Rank(c.ph))
  }

  lemma {:induction false} FixedOK()
    ensures Complete(Fixed().ll) && Complete(Fixed().dl) && CodesOK(Fixed())
  {
    FixedKraft(288);
    FixedDistKraft(32);
    Pow2Values();
  }

  lemma {:induction false} FixedKraft(n: nat)
    requires n <= 288
    ensures KraftTo(FixedLengths(), n) ==
      if n <= 144 then 128 * n
      else if n <= 256 then 128 * 144 + 64 * (n - 144)
      else if n <= 280 then 128 * 144 + 64 * 112 + 256 * (n - 256)
      else 128 * 144 + 64 * 112 + 256 * 24 + 128 * (n - 280)
  {
    if n == 0 {
    } else {
      FixedKraft(n - 1);
      Pow2Values();
    }
  }

  lemma {:induction false} FixedDistKraft(n: nat)
    requires n <= 32
    ensures KraftTo(FixedDistances(), n) == 1024 * n
  {
    if n == 0 {
    } else {
      FixedDistKraft(n - 1);
      Pow2Values();
    }
  }

  lemma {:induction false} FixedCount(n: nat, L: nat)
    requires n <= 288 && 1 <= L <= 9
    ensures CountTo(FixedLengths(), n, L) ==
      if L < 7 then 0
      else if L == 7 then (if n <= 256 then 0 else if n <= 280 then n - 256 else 24)
      else if L == 8 then (if n <= 144 then n else if n <= 280 then 144 else n - 136)
      else (if n <= 144 then 0 else if n <= 256 then n - 144 else 112)
  {
    if n == 0 {
    } else {
      FixedCount(n - 1, L);
    }
  }

  /** No code is shorter than seven bits. */
  lemma {:induction false} NoShortCodes(L: nat)
    requires L <= 7
    ensures NextCode(FixedLengths(), L) == 0
  {
    hide CountTo;
    if L == 0 {
    } else {
      NoShortCodes(L - 1);
      if L > 1 { FixedCount(288, L - 1); }
    }
  }

  /** The fixed codes as section 3.2.6 of RFC 1951 lists them. */
  lemma {:induction false} FixedCodes(lens: Lens, s: nat)
    requires lens == FixedLengths() && s < 288
    ensures s < 144 ==> lens[s] == 8 && CodeOf(lens, s) == 0x30 + s
    ensures 144 <= s < 256 ==> lens[s] == 9 && CodeOf(lens, s) == 0x190 + (s - 144)
    ensures 256 <= s < 280 ==> lens[s] == 7 && CodeOf(lens, s) == s - 256
    ensures 280 <= s ==> lens[s] == 8 && CodeOf(lens, s) == 0xc0 + (s - 280)
  {
    hide CountTo;
    NoShortCodes(7);
    FixedCount(288, 7);
    FixedCount(288, 8);
    FixedCount(s, lens[s]);
    assert NextCode(lens, 8) == 0x30;
    assert NextCode(lens, 9) == 0x190;
  }

  /** Distances have the five bits of their number. */
  lemma {:induction false} FixedDistCodes(lens: Lens, d: nat)
    requires lens == FixedDistances() && d < 32
    ensures lens[d] == 5 && CodeOf(lens, d) == d
  {
    hide CountTo;
    NoShorterDist(4);
    DistCount(32, 4);
    DistCount(d, 5);
    assert NextCode(lens, 5) == 0;
  }

  lemma {:induction false} NoShorterDist(L: nat)
    requires L <= 4
    ensures NextCode(FixedDistances(), L) == 0
  {
    hide CountTo;
    if L == 0 {
    } else {
      NoShorterDist(L - 1);
      if L > 1 { DistCount(32, L - 1); }
    }
  }

  lemma {:induction false} DistCount(n: nat, L: nat)
    requires n <= 32
    ensures CountTo(FixedDistances(), n, L) == if L == 5 then n else 0
  {
    if n == 0 {
    } else {
      DistCount(n - 1, L);
    }
  }

  lemma {:induction false} DecodeUses(kind: Kind, lens: Lens, w: seq<bool>)
    requires Acceptable(kind, lens)
    ensures Decode(lens, w).Found? ==> 1 <= Decode(lens, w).n <= |w| && Uses(lens, Decode(lens, w).s)
    ensures Decode(lens, w).Invalid? ==> |w| >= 1
  {
    if !Decode(lens, w).More? { DecodeMono(kind, lens, w, w); }
  }

  /** What holds of a step from c to c'. */
  ghost predicate Keeps(c: Cfg, c': Cfg, S: Stream, limit: nat) {
    WF(c', S) && Progress(c, c') && (|c'.out| > |c.out| ==> |c'.out| <= limit)
  }

  lemma {:induction false} TypeKeeps(c: Cfg, S: Stream, limit: nat)
    requires WF(c, S) && c.ph.Type? && TypeStep(c, S).Some?
    ensures Keeps(c, TypeStep(c, S).value, S, limit)
  {
    hide CodesOK, Num;
    FixedCodesOK();
  }

  lemma {:induction false} FixedCodesOK()
    ensures CodesOK(Fixed())
  {
    hide CodesOK, Complete;
    FixedOK();
  }

  lemma {:induction false} StoredKeeps(c: Cfg, S: Stream, limit: nat)
    requires WF(c, S) && c.ph.Stored? && StoredStep(c, S).Some?
    ensures Keeps(c, StoredStep(c, S).value, S, limit)
  {}

  lemma {:induction false} CopyKeeps(c: Cfg, S: Stream, limit: nat)
    requires WF(c, S) && c.ph.Copy? && CopyStep(c, S, limit).Some?
    ensures Keeps(c, CopyStep(c, S, limit).value, S, limit)
  {}

  lemma {:induction false} TableKeeps(c: Cfg, S: Stream, limit: nat)
    requires WF(c, S) && c.ph.Table? && TableStep(c, S).Some?
    ensures Keeps(c, TableStep(c, S).value, S, limit)
  {
    NumBound(S, c.pos + 10, 4);
    Pow2Values();
  }

  lemma {:induction false} LenLensKeeps(c: Cfg, S: Stream, limit: nat)
    requires WF(c, S) && c.ph.LenLens? && LenLensStep(c, S).Some?
    ensures Keeps(c, LenLensStep(c, S).value, S, limit)
  {
    hide Num, Acceptable;
  }

  lemma {:induction false} CodeLensKeeps(c: Cfg, S: Stream, limit: nat)
    requires WF(c, S) && c.ph.CodeLens? && CodeLensStep(c, S).Some?
    ensures Keeps(c, CodeLensStep(c, S).value, S, limit)
  {
    hide Num, Acceptable, Pow2;
    DecodeUses(CODES, c.ph.cl, S[c.pos..]);
  }

  lemma {:induction false} LenKeeps(c: Cfg, S: Stream, limit: nat)
    requires WF(c, S) && c.ph.Len? && LenStep(c, S).Some?
    ensures Keeps(c, LenStep(c, S).value, S, limit)
  {
    DecodeUses(LENS, c.ph.c.ll, S[c.pos..]);
  }

  lemma {:induction false} LenExtKeeps(c: Cfg, S: Stream, limit: nat)
    requires WF(c, S) && c.ph.LenExt? && LenExtStep(c, S).Some?
    ensures Keeps(c, LenExtStep(c, S).value, S, limit)
  {}

  lemma {:induction false} DistKeeps(c: Cfg, S: Stream, limit: nat)
    requires WF(c, S) && c.ph.Dist? && DistStep(c, S).Some?
    ensures Keeps(c, DistStep(c, S).value, S, limit)
  {
    DecodeUses(DISTS, c.ph.c.dl, S[c.pos..]);
  }

  lemma {:induction false} DistExtKeeps(c: Cfg, S: Stream, limit: nat)
    requires WF(c, S) && c.ph.DistExt? && DistExtStep(c, S).Some?
    ensures Keeps(c, DistExtStep(c, S).value, S, limit)
  {}

  lemma {:induction false} MatchKeeps(c: Cfg, S: Stream, limit: nat)
    requires WF(c, S) && c.ph.Match? && MatchStep(c, limit).Some?
    ensures Keeps(c, MatchStep(c, limit).value, S, limit)
  {}

  /** A step leads to a well-formed configuration and makes progress. */
  lemma {:induction false} StepKeeps(c: Cfg, S: Stream, limit: nat)
    requires WF(c, S) && Step(c, S, limit).Some?
    ensures Keeps(c, Step(c, S, limit).value, S, limit)
  {
    match c.ph
    case Type => TypeKeeps(c, S, limit);
    case Stored => StoredKeeps(c, S, limit);
    case Copy(_) => CopyKeeps(c, S, limit);
    case Table => TableKeeps(c, S, limit);
    case LenLens(_, _, _, _) => LenLensKeeps(c, S, limit);
    case CodeLens(_, _, _, _) => CodeLensKeeps(c, S, limit);
    case Len(_) => LenKeeps(c, S, limit);
    case LenExt(_, _, _) => LenExtKeeps(c, S, limit);
    case Dist(_, _) => DistKeeps(c, S, limit);
    case DistExt(_, _, _, _) => DistExtKeeps(c, S, limit);
    case Match(_, _, _) => MatchKeeps(c, S, limit);
    case _ =>
  }

  // ---- Running to the end --------------------------------------------------------------

  function Left(a: nat, b: nat): nat { if a <= b then b - a else 0 }

  /** The configuration in which the machine stops. */
  ghost function Final(c: Cfg, S: Stream, limit: nat): Cfg
    requires WF(c, S)
    decreases |S| - c.pos, Left(|c.out|, limit), Rank(c.ph)
  {
    match Step(c, S, limit)
    case None => c
    case Some(c') => StepKeeps(c, S, limit); Final(c', S, limit)
  }
}
