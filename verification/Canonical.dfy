/** The canonical Huffman code of section 3.2.2 of RFC 1951, as a function of the
    code lengths alone: no tree and no table. */
module Canonical {
  import opened Bits

  const MAXBITS: nat := 15

  /** Code lengths by symbol; 0 means that the symbol does not occur. */
  type Lens = s: seq<nat> | forall i :: 0 <= i < |s| ==> s[i] <= MAXBITS

  ghost predicate Uses(lens: Lens, s: nat) {
    s < |lens| && lens[s] > 0
  }

  /** The number of codes of length L among the first n symbols. */
  function CountTo(lens: Lens, n: nat, L: nat): nat
    requires n <= |lens|
  {
    if n == 0 then 0 else CountTo(lens, n - 1, L) + (if lens[n - 1] == L then 1 else 0)
  }

  /** bl_count of the RFC, with bl_count[0] = 0. */
  function Count(lens: Lens, L: nat): nat {
    if L == 0 then 0 else CountTo(lens, |lens|, L)
  }

  /** next_code of the RFC: the smallest code of each length. */
  function NextCode(lens: Lens, L: nat): nat {
    if L == 0 then 0 else 2 * (NextCode(lens, L - 1) + Count(lens, L - 1))
  }

  /** The first code of length L that is not used. */
  function End(lens: Lens, L: nat): nat {
    NextCode(lens, L) + Count(lens, L)
  }

  /** The code of a symbol: consecutive values within a length, in symbol order. */
  function CodeOf(lens: Lens, s: nat): nat
    requires s < |lens|
  {
    NextCode(lens, lens[s]) + CountTo(lens, s, lens[s])
  }

  /** The two rules of section 3.2.2 of RFC 1951: codes of one length are consecutive numbers, in
      the order of the symbols; and shorter codes come before longer ones. The first is zero. */
  lemma {:induction false} CodesInOrder(lens: Lens, s: nat, u: nat)
    requires Uses(lens, s) && Uses(lens, u)
    ensures lens[s] == lens[u] && s < u && (forall v :: s < v < u ==> lens[v] != lens[s]) ==>
            CodeOf(lens, u) == CodeOf(lens, s) + 1
    ensures lens[s] < lens[u] ==> Shl(CodeOf(lens, s) + 1, lens[u] - lens[s]) <= CodeOf(lens, u)
    ensures (forall v: nat :: Uses(lens, v) ==> lens[s] <= lens[v] && (lens[s] == lens[v] ==> s <= v)) ==>
            CodeOf(lens, s) == 0
  {
    if lens[s] == lens[u] && s < u && forall v :: s < v < u ==> lens[v] != lens[s] {
      NoneBetween(lens, s + 1, u, lens[s]);
    }
    if lens[s] < lens[u] { ShorterFirst(lens, s, lens[u]); }
    if forall v: nat :: Uses(lens, v) ==> lens[s] <= lens[v] && (lens[s] == lens[v] ==> s <= v) {
      NoneBetween(lens, 0, s, lens[s]);
      NoneShorter(lens, lens[s]);
    }
  }

  lemma {:induction false} NoneBetween(lens: Lens, m: nat, n: nat, L: nat)
    requires m <= n <= |lens| && forall v :: m <= v < n ==> lens[v] != L
    ensures CountTo(lens, n, L) == CountTo(lens, m, L)
  {
    if m == n {
    } else {
      NoneBetween(lens, m, n - 1, L);
    }
  }

  lemma {:induction false} NoneShorter(lens: Lens, L: nat)
    requires forall v: nat :: Uses(lens, v) ==> L <= lens[v]
    ensures NextCode(lens, L) == 0
  {
    if L == 0 {
    } else {
      NoneShorter(lens, L - 1);
      if L > 1 { NoneBetween(lens, 0, |lens|, L - 1); }
    }
  }

  lemma {:induction false} ShorterFirst(lens: Lens, s: nat, L: nat)
    requires Uses(lens, s) && lens[s] < L
    ensures Shl(CodeOf(lens, s) + 1, L - lens[s]) <= NextCode(lens, L)
  {
    hide CountTo;
    if L == lens[s] + 1 {
      RankBound(lens, s);
      assert Shl(CodeOf(lens, s) + 1, 1) == 2 * Shl(CodeOf(lens, s) + 1, 0);
    } else {
      ShorterFirst(lens, s, L - 1);
    }
  }

  /** The code as it appears in the stream, first bit first. */
  function CodeBits(lens: Lens, s: nat): (w: seq<bool>)
    requires s < |lens|
    ensures |w| == lens[s]
  {
    ToBE(lens[s], CodeOf(lens, s))
  }

  /** The code as an index: the stream's first bit is the least significant. */
  function Huff(lens: Lens, s: nat): nat
    requires s < |lens|
  {
    Rev(lens[s], CodeOf(lens, s))
  }

  /** The number x, read from its lowest bit, begins with the code of s. */
  ghost predicate Starts(lens: Lens, s: nat, x: nat) {
    Uses(lens, s) && Low(x, lens[s]) == Huff(lens, s)
  }

  // ---- The Kraft sum ------------------------------------------------------------

  /** The sum of 2^-length over the first n symbols, in units of 2^-15. */
  function KraftTo(lens: Lens, n: nat): nat
    requires n <= |lens|
  {
    if n == 0 then 0
    else KraftTo(lens, n - 1) + (if lens[n - 1] == 0 then 0 else Pow2(MAXBITS - lens[n - 1]))
  }

  function Kraft(lens: Lens): nat { KraftTo(lens, |lens|) }

  ghost predicate Complete(lens: Lens) { Kraft(lens) == Pow2(MAXBITS) }

  ghost predicate Fits(lens: Lens) { Kraft(lens) <= Pow2(MAXBITS) }

  /** The same sum taken length by length, up to length L. */
  function KraftByLength(lens: Lens, n: nat, L: nat): nat
    requires n <= |lens| && L <= MAXBITS
  {
    if L == 0 then 0 else KraftByLength(lens, n, L - 1) + Shl(CountTo(lens, n, L), MAXBITS - L)
  }

  lemma {:induction false} KraftByLengthStep(lens: Lens, n: nat, L: nat)
    requires n < |lens| && L <= MAXBITS
    ensures KraftByLength(lens, n + 1, L) == KraftByLength(lens, n, L)
              + (if 0 < lens[n] <= L then Pow2(MAXBITS - lens[n]) else 0)
  {
    if L == 0 {
    } else {
      KraftByLengthStep(lens, n, L - 1);
      ShlAdd(CountTo(lens, n, L), 1, MAXBITS - L);
      ShlOne(MAXBITS - L);
    }
  }

  lemma {:induction false} KraftZero(lens: Lens, L: nat)
    requires L <= MAXBITS
    ensures KraftByLength(lens, 0, L) == 0
  {
    if L == 0 {
    } else {
      KraftZero(lens, L - 1);
      ShlZero(MAXBITS - L);
    }
  }

  lemma {:induction false} KraftTwoWays(lens: Lens, n: nat)
    requires n <= |lens|
    ensures KraftTo(lens, n) == KraftByLength(lens, n, MAXBITS)
  {
    if n == 0 {
      KraftZero(lens, MAXBITS);
    } else {
      KraftTwoWays(lens, n - 1);
      KraftByLengthStep(lens, n - 1, MAXBITS);
    }
  }

  lemma {:induction false} EndIsKraft(lens: Lens, L: nat)
    requires L <= MAXBITS
    ensures Shl(End(lens, L), MAXBITS - L) == KraftByLength(lens, |lens|, L)
  {
    if L == 0 {
      ShlZero(MAXBITS);
    } else {
      EndIsKraft(lens, L - 1);
      ShlShl(End(lens, L - 1), 1, MAXBITS - L);
      assert Shl(End(lens, L - 1), 1) == NextCode(lens, L);
      ShlAdd(NextCode(lens, L), Count(lens, L), MAXBITS - L);
    }
  }

  /** The running check of the table builder bounds every length as soon as the
      Kraft sum is at most one, and the last length carries the whole sum. */
  lemma {:induction false} KraftIsEnd(lens: Lens)
    ensures Kraft(lens) == End(lens, MAXBITS)
  {
    KraftTwoWays(lens, |lens|);
    EndIsKraft(lens, MAXBITS);
  }

  lemma {:induction false} EndGrows(lens: Lens, L: nat, M: nat)
    requires L < M
    ensures Shl(End(lens, L), M - L) <= NextCode(lens, M)
  {
    if L + 1 < M {
      EndGrows(lens, L, M - 1);
    } else {
      assert Shl(End(lens, L), 1) == 2 * Shl(End(lens, L), 0);
    }
  }

  lemma {:induction false} EndFits(lens: Lens, L: nat)
    requires Fits(lens) && L <= MAXBITS
    ensures End(lens, L) <= Pow2(L)
  {
    KraftIsEnd(lens);
    if L < MAXBITS {
      EndGrows(lens, L, MAXBITS);
      ShlPow2(L, MAXBITS - L);
      ShlMono(End(lens, L), Pow2(L), MAXBITS - L);
    }
  }

  /** No length can overflow unless the whole sum does. */
  lemma {:induction false} Oversubscribed(lens: Lens, L: nat)
    requires L <= MAXBITS && End(lens, L) > Pow2(L)
    ensures !Fits(lens)
  {
    if Fits(lens) { EndFits(lens, L); }
  }

  // ---- Ranks and codes ------------------------------------------------------------

  lemma {:induction false} CountToMono(lens: Lens, m: nat, n: nat, L: nat)
    requires m <= n <= |lens|
    ensures CountTo(lens, m, L) <= CountTo(lens, n, L)
  {
    if m >= n {
    } else {
      CountToMono(lens, m, n - 1, L);
    }
  }

  lemma {:induction false} RankBound(lens: Lens, s: nat)
    requires Uses(lens, s)
    ensures CountTo(lens, s, lens[s]) < Count(lens, lens[s])
  {
    RankStrict(lens, s, |lens|, lens[s]);
  }

  /** Every code fits in its length. */
  lemma {:induction false} CodeRange(lens: Lens, s: nat)
    requires Uses(lens, s)
    ensures NextCode(lens, lens[s]) <= CodeOf(lens, s) < End(lens, lens[s])
    ensures Fits(lens) ==> CodeOf(lens, s) < Pow2(lens[s])
  {
    RankBound(lens, s);
    if Fits(lens) { EndFits(lens, lens[s]); }
  }

  /** The symbol of rank j among the codes of length L. */
  ghost function Select(lens: Lens, n: nat, L: nat, j: nat): (s: nat)
    requires n <= |lens| && j < CountTo(lens, n, L)
    ensures s < n && lens[s] == L && CountTo(lens, s, L) == j
  {
    if lens[n - 1] == L && CountTo(lens, n - 1, L) == j then n - 1 else Select(lens, n - 1, L, j)
  }

  lemma {:induction false} RankStrict(lens: Lens, s: nat, t: nat, L: nat)
    requires s < t <= |lens| && lens[s] == L
    ensures CountTo(lens, s, L) < CountTo(lens, t, L)
  {
    CountToMono(lens, s + 1, t, L);
  }

  lemma {:induction false} RankUnique(lens: Lens, s: nat, t: nat)
    requires Uses(lens, s) && Uses(lens, t) && lens[s] == lens[t]
    requires CountTo(lens, s, lens[s]) == CountTo(lens, t, lens[t])
    ensures s == t
  {
    var L := lens[s];
    if s < t { RankStrict(lens, s, t, L); }
    else if t < s { RankStrict(lens, t, s, L); }
  }

  /** Where a longer code lies relative to a shorter length's codes. */
  lemma {:induction false} PrefixAbove(lens: Lens, t: nat, L: nat)
    requires Uses(lens, t) && L < lens[t]
    ensures Shr(CodeOf(lens, t), lens[t] - L) >= End(lens, L)
  {
    var c, k := CodeOf(lens, t), lens[t] - L;
    CodeRange(lens, t);
    EndGrows(lens, L, lens[t]);
    ShrBound(c, k, End(lens, L));
  }

  /** No code is a prefix of another. */
  lemma {:induction false} PrefixFree(lens: Lens, s: nat, t: nat)
    requires Fits(lens) && Uses(lens, s) && Uses(lens, t) && s != t && lens[s] <= lens[t]
    ensures Low(Huff(lens, t), lens[s]) != Huff(lens, s)
  {
    hide NextCode, Rev, Shl, Pow2, Fits;
    var L, k := lens[s], lens[t] - lens[s];
    var c, d := CodeOf(lens, s), CodeOf(lens, t);
    CodeRange(lens, s);
    CodeRange(lens, t);
    RevParts(L, lens[t], d);
    ShlPow2(L, k);
    ShrBound(d, k, Pow2(L));
    RevInjective(L, c, Shr(d, k));
    if k == 0 {
      if c == d { RankUnique(lens, s, t); }
    } else {
      PrefixAbove(lens, t, L);
    }
  }

  lemma {:induction false} RevInjective(n: nat, a: nat, b: nat)
    requires a < Pow2(n) && b < Pow2(n)
    ensures Rev(n, a) == Rev(n, b) <==> a == b
  {
    RevRev(n, a);
    RevRev(n, b);
    LowSmall(a, n);
    LowSmall(b, n);
  }

  /** In a complete code every bit string begins with a code. */
  lemma {:induction false} FindCode(lens: Lens, x: nat, L: nat) returns (s: nat)
    requires Complete(lens) && L <= MAXBITS && NextCode(lens, L) <= Rev(L, x)
    ensures Starts(lens, s, x)
    decreases MAXBITS - L
  {
    var c := Rev(L, x);
    if L > 0 && c < End(lens, L) {
      s := Select(lens, |lens|, L, c - NextCode(lens, L));
      RevRev(L, x);
    } else if L < MAXBITS {
      RevConcat(L, 1, x);
      assert Shl(c, 1) == 2 * Shl(c, 0);
      s := FindCode(lens, x, L + 1);
    } else {
      KraftIsEnd(lens);
      RevBound(L, x);
      assert false;
    }
  }

  // ---- Positions in the sorted order ------------------------------------------------

  /** The number of symbols with a length between 1 and L - 1. */
  function Offs(lens: Lens, L: nat): nat {
    if L == 0 then 0 else Offs(lens, L - 1) + Count(lens, L - 1)
  }

  /** The place of a symbol when sorted by length, then by symbol. */
  function Place(lens: Lens, s: nat): nat
    requires s < |lens|
  {
    Offs(lens, lens[s]) + CountTo(lens, s, lens[s])
  }

  lemma {:induction false} OffsMono(lens: Lens, L: nat, M: nat)
    requires L < M
    ensures Offs(lens, L) + Count(lens, L) <= Offs(lens, M)
  {
    if L + 1 < M { OffsMono(lens, L, M - 1); }
  }

  /** The number of used symbols among the first n, length by length. */
  function UsedTo(lens: Lens, n: nat, L: nat): nat
    requires n <= |lens|
  {
    if L == 0 then 0 else UsedTo(lens, n, L - 1) + CountTo(lens, n, L)
  }

  lemma {:induction false} UsedBound(lens: Lens, n: nat, L: nat)
    requires n <= |lens|
    ensures UsedTo(lens, n, L) <= n
  {
    if n == 0 {
      UsedNone(lens, L);
    } else {
      UsedBound(lens, n - 1, L);
      UsedStep(lens, n - 1, L);
    }
  }

  lemma {:induction false} UsedNone(lens: Lens, L: nat)
    ensures UsedTo(lens, 0, L) == 0
  {
    if L == 0 {
    } else {
      UsedNone(lens, L - 1);
    }
  }

  lemma {:induction false} UsedStep(lens: Lens, n: nat, L: nat)
    requires n < |lens|
    ensures UsedTo(lens, n + 1, L) == UsedTo(lens, n, L) + (if 0 < lens[n] <= L then 1 else 0)
  {
    if L == 0 {
    } else {
      UsedStep(lens, n, L - 1);
    }
  }

  lemma {:induction false} OffsIsUsed(lens: Lens, L: nat)
    ensures Offs(lens, L + 1) == UsedTo(lens, |lens|, L)
    ensures Offs(lens, L + 1) <= |lens|
  {
    if L == 0 {
    } else {
      OffsIsUsed(lens, L - 1);
    }
    UsedBound(lens, |lens|, L);
  }

  /** The distance covered by a run of codes is at most its number of symbols,
      each as wide as the first. */
  lemma {:induction false} Advance(lens: Lens, L: nat, j: nat, M: nat, k: nat)
    requires L <= M <= MAXBITS && j <= Count(lens, L) && k <= Count(lens, M) && (L == M ==> j <= k)
    ensures Offs(lens, L) + j <= Offs(lens, M) + k
    ensures Shl(NextCode(lens, M) + k, MAXBITS - M)
         <= Shl(NextCode(lens, L) + j, MAXBITS - L) + Shl(Offs(lens, M) + k - (Offs(lens, L) + j), MAXBITS - L)
  {
    if L == M {
      ShlAdd(NextCode(lens, L) + j, k - j, MAXBITS - L);
    } else {
      var m := Count(lens, M - 1);
      Advance(lens, L, j, M - 1, m);
      ShlShl(End(lens, M - 1), 1, MAXBITS - M);
      assert Shl(End(lens, M - 1), 1) == NextCode(lens, M);
      ShlAdd(NextCode(lens, M), k, MAXBITS - M);
      var d := Offs(lens, M) - (Offs(lens, L) + j);
      ShlAdd(d, k, MAXBITS - L);
      ShlShl(k, M - L, MAXBITS - M);
      ShlBound(k, M - L);
      ShlMono(k, Shl(k, M - L), MAXBITS - M);
    }
  }

  // ---- Matching a bit string --------------------------------------------------------

  /** The stream w begins with the code of symbol s. */
  ghost predicate Matches(lens: Lens, s: nat, w: seq<bool>) {
    Uses(lens, s) && CodeBits(lens, s) <= w
  }

  lemma {:induction false} MatchesHuff(lens: Lens, s: nat, w: seq<bool>)
    requires Uses(lens, s)
    ensures Matches(lens, s, w) <==> lens[s] <= |w| && Low(LE(w), lens[s]) == Huff(lens, s)
  {
    var L, b := lens[s], CodeBits(lens, s);
    LEToBE(L, CodeOf(lens, s));
    if L <= |w| {
      LESplit(w, L);
      if LE(w[..L]) == LE(b) { LEInjective(w[..L], b); }
      if b <= w { assert w[..L] == b; }
    }
  }

  lemma {:induction false} MatchUnique(lens: Lens, s: nat, t: nat, w: seq<bool>)
    requires Fits(lens) && Matches(lens, s, w) && Matches(lens, t, w)
    ensures s == t
  {
    MatchesHuff(lens, s, w);
    MatchesHuff(lens, t, w);
    if s != t {
      if lens[s] <= lens[t] {
        LowLow(LE(w), lens[s], lens[t]);
        PrefixFree(lens, s, t);
      } else {
        LowLow(LE(w), lens[t], lens[s]);
        PrefixFree(lens, t, s);
      }
    }
  }
}
