/** libgzip/inftrees.c: inflate_table as a whole. */
module InflateTable {
  import opened Bits
  import opened Canonical
  import opened Tables
  import opened TableSteps
  import opened InfTrees
  import opened BuildTable

  // ---- Counting and checking -------------------------------------------------------

  method CountLengths(lens: Lens) returns (count: array<nat>)
    ensures fresh(count) && count.Length == MAXBITS + 1
    ensures forall l :: 0 <= l <= MAXBITS ==> count[l] == CountTo(lens, |lens|, l)
  {
    count := new nat[MAXBITS + 1](_ => 0);
    for sym := 0 to |lens|
      invariant forall l :: 0 <= l <= MAXBITS ==> count[l] == CountTo(lens, sym, l)
    {
      count[lens[sym]] := count[lens[sym]] + 1;
    }
  }

  lemma {:induction false} CountZero(lens: Lens, n: nat, L: nat)
    requires n <= |lens| && 1 <= L
    ensures CountTo(lens, n, L) == 0 <==> forall i :: 0 <= i < n ==> lens[i] != L
  {
    if n == 0 {
    } else {
      CountZero(lens, n - 1, L);
    }
  }

  /** The longest and the shortest length in use; max is 0 when there is none. */
  method FindBounds(lens: Lens, count: array<nat>) returns (min: nat, max: nat)
    requires count.Length == MAXBITS + 1 && forall l :: 1 <= l <= MAXBITS ==> count[l] == Count(lens, l)
    ensures max == 0 <==> Empty(lens)
    ensures max > 0 ==> Bounds(lens, min, max)
    ensures IsMax(lens, max)
  {
    max := MAXBITS;
    while max >= 1 && count[max] == 0
      invariant max <= MAXBITS && forall l :: max < l <= MAXBITS ==> Count(lens, l) == 0
    {
      max := max - 1;
    }
    MaxIsMax(lens, max);
    min := 1;
    if max > 0 {
      while count[min] == 0
        invariant 1 <= min <= max && forall l :: 1 <= l < min ==> Count(lens, l) == 0
        decreases max - min
      {
        min := min + 1;
      }
    }
  }

  ghost predicate IsMax(lens: Lens, max: nat) {
    AtMost(lens, max) && (max > 0 ==> exists i :: 0 <= i < |lens| && lens[i] == max)
  }

  lemma {:induction false} MaxIsMax(lens: Lens, max: nat)
    requires max <= MAXBITS && (max == 0 || Count(lens, max) > 0)
    requires forall l :: max < l <= MAXBITS ==> Count(lens, l) == 0
    ensures IsMax(lens, max)
    ensures max == 0 <==> Empty(lens)
  {
    forall i | 0 <= i < |lens| ensures lens[i] <= max {
      CountAt(lens, i);
    }
    if max > 0 { CountZero(lens, |lens|, max); }
  }

  lemma {:induction false} CountAt(lens: Lens, i: nat)
    requires i < |lens|
    ensures lens[i] > 0 ==> Count(lens, lens[i]) > 0
  {
    if lens[i] > 0 { CountZero(lens, |lens|, lens[i]); }
  }

  /** The check for an over-subscribed or incomplete set of lengths. */
  method CheckLengths(kind: Kind, lens: Lens, count: array<nat>, max: nat) returns (ok: bool)
    requires count.Length == MAXBITS + 1 && forall l :: 1 <= l <= MAXBITS ==> count[l] == Count(lens, l)
    requires max > 0 && IsMax(lens, max)
    ensures ok <==> Acceptable(kind, lens)
  {
    KraftIsEnd(lens);
    var left: int := 1;
    for len := 1 to MAXBITS + 1
      invariant left == Pow2(len - 1) - End(lens, len - 1) && left >= 0
    {
      left := 2 * left - count[len];
      if left < 0 {
        Oversubscribed(lens, len);
        NotEmpty(lens, max);
        return false;
      }
    }
    NotEmpty(lens, max);
    ok := !(left > 0 && (kind.CODES? || max != 1));
  }

  lemma {:induction false} NotEmpty(lens: Lens, max: nat)
    requires max > 0 && IsMax(lens, max)
    ensures !Empty(lens)
    ensures max == 1 <==> AtMost(lens, 1)
  {
    var i :| 0 <= i < |lens| && lens[i] == max;
  }

  // ---- Sorting -------------------------------------------------------------------------

  /** Where the symbols of each length go in the sorted order. */
  method Offsets(lens: Lens, count: array<nat>) returns (offs: array<nat>)
    requires count.Length == MAXBITS + 1 && forall l :: 1 <= l <= MAXBITS ==> count[l] == Count(lens, l)
    ensures fresh(offs) && offs.Length == MAXBITS + 1
    ensures forall l :: 1 <= l <= MAXBITS ==> offs[l] == Offs(lens, l)
  {
    offs := new nat[MAXBITS + 1](_ => 0);
    assert Offs(lens, 1) == 0;
    var len := 1;
    while len < MAXBITS
      invariant 1 <= len <= MAXBITS
      invariant forall l {:trigger offs[l]} :: 1 <= l <= len ==> offs[l] == Offs(lens, l)
    {
      offs[len + 1] := offs[len] + count[len];
      assert Offs(lens, len + 1) == Offs(lens, len) + Count(lens, len);
      len := len + 1;
    }
  }

  /** Sort the symbols by length and, within a length, by value. */
  method SortSymbols(lens: Lens, count: array<nat>, work: array<nat>)
    requires count.Length == MAXBITS + 1 && forall l :: 1 <= l <= MAXBITS ==> count[l] == Count(lens, l)
    requires |lens| <= work.Length && count != work
    modifies work
    ensures Sorted(lens, work[..])
  {
    hide Offs;
    var offs := Offsets(lens, count);
    for sym := 0 to |lens|
      invariant forall l :: 1 <= l <= MAXBITS ==> offs[l] == Offs(lens, l) + CountTo(lens, sym, l)
      invariant forall s: nat :: s < sym && Uses(lens, s) ==> Place(lens, s) < work.Length && work[Place(lens, s)] == s
    {
      if lens[sym] != 0 {
        PlaceBound(lens, sym);
        forall s: nat | s < sym && Uses(lens, s) ensures Place(lens, s) != Place(lens, sym) {
          PlaceInjective(lens, s, sym);
        }
        work[offs[lens[sym]]] := sym;
        offs[lens[sym]] := offs[lens[sym]] + 1;
      }
    }
  }

  lemma {:induction false} PlaceInjective(lens: Lens, s: nat, t: nat)
    requires s != t && Uses(lens, s) && Uses(lens, t)
    ensures Place(lens, s) != Place(lens, t)
  {
    RankBound(lens, s);
    RankBound(lens, t);
    if lens[s] < lens[t] {
      OffsMono(lens, lens[s], lens[t]);
    } else if lens[t] < lens[s] {
      OffsMono(lens, lens[t], lens[s]);
    } else if Place(lens, s) == Place(lens, t) {
      RankUnique(lens, s, t);
    }
  }

  // ---- inflate_table ----------------------------------------------------------------------

  /** The root table is never larger than the request or the number of symbols. */
  lemma {:induction false} RootSpace(lens: Lens, bits: nat, min: nat, max: nat, root: nat)
    requires Bounds(lens, min, max) && (Complete(lens) || max == 1) && 1 <= bits <= MAXBITS
    requires root == if max < bits then max else if bits < min then min else bits
    requires IsMax(lens, max)
    ensures Space(lens, root, max) <= Room(lens, bits)
  {
    hide Pow2, Complete;
    if max <= bits {
      Pow2Mono(max, bits);
    } else {
      var i :| 0 <= i < |lens| && lens[i] == max;
      Pow2Mono(max - root, MAXBITS - bits);
      if bits < min { MinCost(lens, min); }
    }
  }

  /** A complete code without codes shorter than min has at least 2^min symbols. */
  lemma {:induction false} MinCost(lens: Lens, min: nat)
    requires Complete(lens) && 1 <= min <= MAXBITS && forall l :: 1 <= l < min ==> Count(lens, l) == 0
    ensures Pow2(min) <= |lens|
  {
    SkipLengths(lens, 0, min);
    ShlZero(min);
    Advance(lens, min, 0, MAXBITS, Count(lens, MAXBITS));
    KraftIsEnd(lens);
    OffsIsUsed(lens, MAXBITS);
    ShlZero(MAXBITS - min);
    ShlPow2(min, MAXBITS - min);
    var n := Offs(lens, MAXBITS) + Count(lens, MAXBITS);
    ShlMono(Pow2(min), n, MAXBITS - min);
  }

  /** Fill what an incomplete code leaves of the root table with invalid markers.
      Only the code with a single one-bit symbol gets here, so the fall back from a
      sub-table to the root table that the source provides for is never taken. */
  method FillInvalid(tab: array<Code>, t0: nat, lens: Lens, root: nat, huff0: nat, drop: nat, low: nat, max: nat)
    requires huff0 <= 1 && (huff0 == 1 ==> root == 1 && max == 1 && drop == 0 && t0 + 2 <= tab.Length)
    modifies tab
    ensures forall i :: 0 <= i < tab.Length && (huff0 == 0 || i != t0 + 1) ==> tab[i] == old(tab[i])
    ensures huff0 == 1 ==> tab[t0 + 1] == INVALID
  {
    var huff: nat := huff0;
    while huff != 0
      invariant huff <= huff0
      invariant forall i :: 0 <= i < tab.Length && (huff0 == 0 || i != t0 + 1) ==> tab[i] == old(tab[i])
      invariant huff0 == 1 && huff == 0 ==> tab[t0 + 1] == INVALID
    {
      assert drop == 0 || Low(huff, root) == low;
      assert Shr(huff, 0) == 1 && Pow2(1) == 2 * Pow2(0);
      tab[t0 + Shr(huff, drop)] := Code(64, max - drop, 0);
      huff := Increment(huff, max);
      assert Inc(1, 1) == 0;
    }
  }

  /** Build the tables of an acceptable set of lengths. */
  method Tabulate(kind: Kind, lens: Lens, tab: array<Code>, t0: nat, root: nat, min: nat, max: nat,
                  count: array<nat>, work: array<nat>)
    returns (ret: int, next: nat)
    requires |lens| <= Limit(kind) && Acceptable(kind, lens) && !Empty(lens) && Bounds(lens, min, max)
    requires min <= root <= max && (max == 1 <==> AtMost(lens, 1))
    requires count.Length == MAXBITS + 1 && count != work
    requires forall l :: 1 <= l <= MAXBITS ==> count[l] == Count(lens, l)
    requires Sorted(lens, work[..])
    requires t0 + Space(lens, root, max) <= tab.Length && Space(lens, root, max) < 65536
    modifies tab, count
    ensures ret == 0 || ret == 1
    ensures ret == 1 ==> kind.LENS? && Space(lens, root, max) >= ENOUGH - MAXD
    ensures ret == 0 ==> t0 <= next <= t0 + Space(lens, root, max) && TableOK(kind, lens, tab[t0..next], root)
    ensures forall i :: 0 <= i < t0 ==> tab[i] == old(tab[i])
  {
    hide Holds, Allocated, Acceptable, Sorted, TableOK, Rev, Complete;
    AcceptableFits(kind, lens);
    LastIndex(kind, lens, max, root);
    var over, used, huff, drop, low := FillTables(kind, lens, tab, t0, root, min, max, count, work);
    if over { return 1, t0; }
    ghost var t := tab[t0..][..used];
    Pow2Mono(1, root);
    FillInvalid(tab, t0, lens, root, huff, drop, low, max);
    ret, next := 0, t0 + used;
    forall i | 0 <= i < used && Complete(lens) ensures tab[t0..next][i] == t[i] {}
    assert Complete(lens) ==> tab[t0..next] == t;
    Finished(kind, lens, t, tab[t0..next], root);
  }

  /** The root bits of a table: those asked for, but no more than the longest code and no
      less than the shortest has; one for a table without codes. */
  ghost predicate RootFor(lens: Lens, bits: nat, root: nat) {
    if Empty(lens) then root == 1
    else exists min: nat, max: nat :: Bounds(lens, min, max) && root == RootWithin(min, max, bits)
  }

  function RootWithin(min: nat, max: nat, bits: nat): nat {
    if max < bits then max else if bits < min then min else bits
  }

  /** Build the decoding table of a set of code lengths at tab[t0..]. */
  method InflateTable(kind: Kind, lens: Lens, tab: array<Code>, t0: nat, bits: nat, work: array<nat>)
    returns (ret: int, next: nat, root: nat)
    requires |lens| <= Limit(kind) && |lens| <= work.Length && 1 <= bits <= MAXBITS
    requires t0 + Room(lens, bits) <= tab.Length && Room(lens, bits) < 65536
    modifies tab, work
    ensures ret == -1 <==> !Acceptable(kind, lens)
    ensures ret == -1 <==>
      || Kraft(lens) > Pow2(15)
      || (0 < Kraft(lens) < Pow2(15) && (kind.CODES? || exists i :: 0 <= i < |lens| && lens[i] > 1))
    ensures ret == 1 ==> kind.LENS? && Room(lens, bits) >= ENOUGH - MAXD
    ensures ret == -1 || ret == 0 || ret == 1
    ensures ret == 0 ==> t0 <= next <= t0 + Room(lens, bits) && TableOK(kind, lens, tab[t0..next], root)
    ensures ret == 0 ==> RootFor(lens, bits, root)
    ensures ret == 0 && AtMost(lens, bits) ==> AtMost(lens, root) && root <= bits
    ensures forall i :: 0 <= i < t0 ==> tab[i] == old(tab[i])
  {
    hide Kraft, Sorted, TableOK, RootFor, Acceptable, Complete, AtMost, Pow2, Room, Empty, Bounds;
    RefusedIff(kind, lens);
    var count := CountLengths(lens);
    var min, max := FindBounds(lens, count);
    if max == 0 {
      next, root := InvalidTable(kind, lens, tab, t0, bits);
      ret := 0;
    } else {
      ret, next, root := CheckAndTabulate(kind, lens, tab, t0, bits, min, max, count, work);
    }
  }

  /** No symbols: a table of two invalid entries. */
  method InvalidTable(kind: Kind, lens: Lens, tab: array<Code>, t0: nat, bits: nat) returns (next: nat, root: nat)
    requires Empty(lens) && |lens| <= Limit(kind) && 1 <= bits <= MAXBITS
    requires t0 + Room(lens, bits) <= tab.Length && Room(lens, bits) < 65536
    modifies tab
    ensures Acceptable(kind, lens) && RootFor(lens, bits, root) && AtMost(lens, root) && root <= bits
    ensures t0 <= next <= t0 + Room(lens, bits) && TableOK(kind, lens, tab[t0..next], root)
    ensures forall i :: 0 <= i < t0 ==> tab[i] == old(tab[i])
  {
    hide TableOK, RootFor, Acceptable, Complete;
    EmptyTable(kind, lens, bits);
    EmptyFacts(kind, lens, bits);
    tab[t0], tab[t0 + 1] := INVALID, INVALID;
    next, root := t0 + 2, 1;
    EmptyTableOK(kind, lens, tab[t0..next]);
  }

  /** At least one symbol. */
  method CheckAndTabulate(kind: Kind, lens: Lens, tab: array<Code>, t0: nat, bits: nat, min: nat, max: nat,
                          count: array<nat>, work: array<nat>)
    returns (ret: int, next: nat, root: nat)
    requires |lens| <= Limit(kind) && |lens| <= work.Length && 1 <= bits <= MAXBITS
    requires t0 + Room(lens, bits) <= tab.Length && Room(lens, bits) < 65536
    requires Bounds(lens, min, max) && IsMax(lens, max)
    requires count.Length == MAXBITS + 1 && count != work
    requires forall l :: 1 <= l <= MAXBITS ==> count[l] == Count(lens, l)
    modifies tab, work, count
    ensures ret == -1 <==> !Acceptable(kind, lens)
    ensures ret == 1 ==> kind.LENS? && Room(lens, bits) >= ENOUGH - MAXD
    ensures ret == -1 || ret == 0 || ret == 1
    ensures ret == 0 ==> t0 <= next <= t0 + Room(lens, bits) && TableOK(kind, lens, tab[t0..next], root)
    ensures ret == 0 ==> RootFor(lens, bits, root)
    ensures ret == 0 && AtMost(lens, bits) ==> AtMost(lens, root) && root <= bits
    ensures forall i :: 0 <= i < t0 ==> tab[i] == old(tab[i])
  {
    hide Kraft, Sorted, TableOK, RootFor, Acceptable, Complete;
    root := bits;
    if root > max { root := max; }
    if root < min { root := min; }
    assert root == RootWithin(min, max, bits);
    var ok := CheckLengths(kind, lens, count, max);
    if !ok { return -1, t0, root; }
    NotEmpty(lens, max);
    AcceptableFits(kind, lens);
    OneBitOrComplete(kind, lens, bits, min, max);
    SortSymbols(lens, count, work);
    RootSpace(lens, bits, min, max, root);
    ret, next := Tabulate(kind, lens, tab, t0, root, min, max, count, work);
  }

  lemma {:induction false} EmptyFacts(kind: Kind, lens: Lens, bits: nat)
    requires Empty(lens)
    ensures Acceptable(kind, lens) && RootFor(lens, bits, 1)
  {}

  lemma {:induction false} OneBitOrComplete(kind: Kind, lens: Lens, bits: nat, min: nat, max: nat)
    requires Acceptable(kind, lens) && !Empty(lens) && Bounds(lens, min, max) && IsMax(lens, max)
    ensures (Complete(lens) || max == 1) && RootFor(lens, bits, RootWithin(min, max, bits))
  {
    hide Complete;
  }

  lemma {:induction false} EmptyTable(kind: Kind, lens: Lens, bits: nat)
    requires Empty(lens) && 1 <= bits
    ensures Room(lens, bits) == Pow2(bits) >= 2
  {
    Pow2Mono(1, bits);
    Pow2Values();
  }

  lemma {:induction false} EmptyTableOK(kind: Kind, lens: Lens, t: seq<Code>)
    requires Empty(lens) && |lens| <= Limit(kind) && t == [INVALID, INVALID]
    ensures TableOK(kind, lens, t, 1)
  {
    Pow2Values();
  }

  /** The index after the last code: zero for a complete code, else the one slot of
      the lone one-bit code that is left over. */
  lemma {:induction false} LastIndex(kind: Kind, lens: Lens, max: nat, root: nat)
    requires Acceptable(kind, lens) && !Empty(lens) && (max == 1 <==> AtMost(lens, 1))
    ensures !Complete(lens) ==> max == 1 && Rev(max, End(lens, max)) == 1
  {
    if !Complete(lens) {
      var s := LoneCode(kind, lens);
      OneCode(lens);
      RankBound(lens, s);
      assert Count(lens, 0) == 0 && NextCode(lens, 0) == 0 && NextCode(lens, 1) == 0;
      RevOne(1);
    }
  }

  lemma {:induction false} Finished(kind: Kind, lens: Lens, t: seq<Code>, t': seq<Code>, root: nat)
    requires |lens| <= Limit(kind) && 1 <= root <= MAXBITS && Acceptable(kind, lens) && !Empty(lens)
    requires Pow2(root) <= |t| == |t'|
    requires forall s: nat :: Uses(lens, s) ==> Holds(kind, lens, t, root, s)
    requires forall i: nat :: Pow2(root) <= i < |t| ==> Allocated(lens, t, root, i)
    requires Complete(lens) ==> t' == t
    requires !Complete(lens) ==> root == 1 && |t| == Pow2(root) && t'[0] == t[0] && t'[1] == INVALID
    ensures TableOK(kind, lens, t', root)
  {
    if !Complete(lens) {
      var s := LoneCode(kind, lens);
      Pow2Values();
      assert Low(1, 1) == 1 % 2 + 2 * Low(0, 0);
      forall u: nat | Uses(lens, u) ensures Holds(kind, lens, t', root, u) {
        assert Holds(kind, lens, t, root, s);
      }
    }
  }
}
