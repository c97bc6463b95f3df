/** libgzip/inftrees.c: inflate_table builds a two-level decoding table in place.

    Shifts and masks are Shl, Shr and Low. The probe "incr" of the source, always a
    power of two or zero, is represented by its number of bits. */
module InfTrees {
  import opened Bits
  import opened Canonical
  import opened Tables
  import opened TableSteps

  const ENOUGH: nat := 2048
  const MAXD: nat := 592
  const NONE: nat := 0xFFFF_FFFF

  const LBASE: seq<u16> := [
    3, 4, 5, 6, 7, 8, 9, 10, 11, 13, 15, 17, 19, 23, 27, 31,
    35, 43, 51, 59, 67, 83, 99, 115, 131, 163, 195, 227, 258, 0, 0]
  const LEXT: seq<byte> := [
    16, 16, 16, 16, 16, 16, 16, 16, 17, 17, 17, 17, 18, 18, 18, 18,
    19, 19, 19, 19, 20, 20, 20, 20, 21, 21, 21, 21, 16, 201, 196]
  const DBASE: seq<u16> := [
    1, 2, 3, 4, 5, 7, 9, 13, 17, 25, 33, 49, 65, 97, 129, 193,
    257, 385, 513, 769, 1025, 1537, 2049, 3073, 4097, 6145,
    8193, 12289, 16385, 24577, 0, 0]
  const DEXT: seq<byte> := [
    16, 16, 16, 16, 17, 17, 18, 18, 19, 19, 20, 20, 21, 21, 22, 22,
    23, 23, 24, 24, 25, 25, 26, 26, 27, 27,
    28, 28, 29, 29, 64, 64]

  /** The literal tables are the lengths and distances of the RFC. */
  lemma {:induction false} LengthTables(s: nat)
    requires 257 <= s < 288
    ensures Entry(LENS, s, 1) == Code(LEXT[s - 257], 1, LBASE[s - 257])
  {
    hide LenBase;
    if s < 286 { LengthBases(s); }
  }

  /** 2^LenExtra(s), written out. */
  function LenScale(s: nat): nat {
    if s < 265 then 1 else if s < 269 then 2 else if s < 273 then 4 else if s < 277 then 8 else if s < 281 then 16
        else 32
  }

  lemma {:induction false} LenScaleIsPow2(s: nat)
    requires 265 <= s < 285
    ensures LenScale(s) == Pow2(LenExtra(s))
  {
    Pow2Values();
  }

  lemma {:induction false} LenScaleFitsTable(s: nat)
    requires 265 <= s < 285
    ensures LBASE[s - 257] == 3 + (if s % 4 == 1 then 4 * LenScale(s) else if s % 4 == 2 then 5 * LenScale(s)
                                   else if s % 4 == 3 then 6 * LenScale(s) else 7 * LenScale(s))
  {}

  lemma {:induction false} LengthBases(s: nat)
    requires 257 <= s < 286
    ensures LBASE[s - 257] == LenBase(s)
  {
    hide Pow2, LenScale, Shl;
    if 265 <= s < 285 {
      var k := LenExtra(s);
      LenScaleIsPow2(s);
      LenScaleFitsTable(s);
      ShlOne(k);
      ShlAdd(1, 1, k);
      ShlAdd(2, 2, k);
      ShlAdd(4, 1, k);
      ShlAdd(4, 2, k);
      ShlAdd(4, 3, k);
      ShlAdd(1, 2, k);
    }
  }

  lemma {:induction false} DistanceTables(s: nat)
    requires s < 32
    ensures Entry(DISTS, s, 1) == Code(DEXT[s], 1, DBASE[s])
  {
    hide DistBase;
    if s < 30 { DistanceBases(s); }
  }

  /** 2^DistExtra(s), written out. */
  function DistScale(s: nat): nat {
    if s < 6 then 2 else if s < 8 then 4 else if s < 10 then 8 else if s < 12 then 16
    else if s < 14 then 32 else if s < 16 then 64 else if s < 18 then 128 else if s < 20 then 256
    else if s < 22 then 512 else if s < 24 then 1024 else if s < 26 then 2048 else if s < 28 then 4096
    else 8192
  }

  lemma {:induction false} DistScaleIsPow2(s: nat, k: nat)
    requires 4 <= s < 30 && k == s / 2 - 1
    ensures DistScale(s) == Pow2(k)
  {
    Pow2Values();
  }

  lemma {:induction false} DistScaleFitsTable(s: nat)
    requires 4 <= s < 30
    ensures DBASE[s] == 1 + (if s % 2 == 0 then 2 * DistScale(s) else 3 * DistScale(s))
  {}

  lemma {:induction false} DistanceBases(s: nat)
    requires s < 30
    ensures DBASE[s] == DistBase(s)
  {
    if s >= 4 {
      var k := DistExtra(s);
      DistScaleIsPow2(s, k);
      DistScaleFitsTable(s);
      ShlOne(k);
      ShlAdd(1, 1, k);
      ShlAdd(1, 2, k);
    }
  }

  /** The entry for symbol s with n bits left to match. */
  method MakeEntry(kind: Kind, s: nat, n: byte) returns (e: Code)
    requires s < Limit(kind)
    ensures e == Entry(kind, s, n)
  {
    var end := match kind case CODES => 19 case LENS => 256 case DISTS => -1;
    if s < end {
      e := Code(0, n, s);
    } else if s > end {
      if kind.LENS? {
        LengthTables(s);
        e := Code(LEXT[s - 257], n, LBASE[s - 257]);
      } else {
        DistanceTables(s);
        e := Code(DEXT[s], n, DBASE[s]);
      }
    } else {
      e := Code(32 + 64, n, 0);
    }
  }

  /** Fill the slots of a table of 2^curr entries whose low n index bits are h. */
  method Replicate(tab: array<Code>, t0: nat, next: nat, curr: nat, n: nat, h: nat, e: Code)
    requires t0 + next + Pow2(curr) <= tab.Length && n <= curr && h < Pow2(n)
    modifies tab
    ensures Stored(old(tab[t0..]), tab[t0..], next, curr, n, h, e)
    ensures forall i :: 0 <= i < t0 ==> tab[i] == old(tab[i])
  {
    hide Shl, Shr, Low, Pow2;
    var base, incr, fill := t0 + next, Pow2(n), Pow2(curr);
    ghost var k := Pow2(curr - n);
    ShlPow2(curr - n, n);
    forall i | 0 <= i < Pow2(curr) ensures Shr(i, n) < k { ShrBound(i, n, k); }
    while fill != 0
      invariant fill == Shl(k, n) && fill <= Pow2(curr)
      invariant forall i :: 0 <= i < tab.Length && !(base <= i < base + Pow2(curr)) ==> tab[i] == old(tab[i])
      invariant forall i :: 0 <= i < Pow2(curr) && Low(i, n) != h ==> tab[base + i] == old(tab[base + i])
      invariant forall i :: 0 <= i < Pow2(curr) && Low(i, n) == h && Shr(i, n) >= k ==> tab[base + i] == e
      decreases k
    {
      if k == 0 { ShlZero(n); }
      k := k - 1;
      ShlAdd(k, 1, n);
      ShlOne(n);
      Join(h, k, n);
      fill := fill - incr;
      forall i | 0 <= i < Pow2(curr) && Low(i, n) == h && Shr(i, n) == k ensures i == h + fill {
        Split(i, n);
      }
      tab[base + h + fill] := e;
    }
    forall i | 0 <= i < Pow2(curr) && Low(i, n) == h ensures tab[base + i] == e {
      if k > 0 { ShlBound(k, n); }
      assert Shr(i, n) >= k;
    }
  }

  /** Increment an index of len bits backwards. */
  method Increment(huff: nat, len: nat) returns (r: nat)
    requires huff < Pow2(len)
    ensures r == Inc(len, huff)
  {
    var incr: nat := len;
    LowSmall(huff, len);
    while incr > 0 && Low(Shr(huff, incr - 1), 1) == 1
      invariant incr <= len && Inc(len, huff) == Inc(incr, Low(huff, incr))
    {
      LowLow(huff, incr - 1, incr);
      LowLow(Shr(huff, incr - 1), 1, 1);
      incr := incr - 1;
    }
    if incr > 0 {
      LowLow(huff, incr - 1, incr);
      LowLow(Shr(huff, incr - 1), 1, 1);
      r := Low(huff, incr - 1) + Pow2(incr - 1);
    } else {
      r := 0;
    }
  }

  /** The size of the sub-table for root prefix p, from the codes that remain. */
  method SubTableSize(lens: Lens, count: array<nat>, root: nat, len: nat, max: nat, ghost j: nat, ghost p: nat)
    returns (curr: nat)
    requires root < len <= max <= MAXBITS && count.Length == MAXBITS + 1
    requires count[len] + j == Count(lens, len)
    requires forall l :: len < l <= MAXBITS ==> count[l] == Count(lens, l)
    requires NextCode(lens, len) + j == Shl(p, len - root)
    ensures SizeEnough(lens, root, p, curr, max) && SizeTight(lens, root, p, curr, len)
  {
    curr := len - root;
    var left: int := Pow2(curr);
    ShlAdd(p, 1, curr);
    ShlOne(curr);
    while curr + root < max
      invariant len <= curr + root <= max
      invariant left == Shl(p + 1, curr)
                        - (if curr + root == len then NextCode(lens, len) + j else NextCode(lens, curr + root))
      invariant SizeTight(lens, root, p, curr, len)
    {
      left := left - count[curr + root];
      if left <= 0 { break; }
      curr := curr + 1;
      left := left * 2;
    }
  }

  // ---- The main loop -------------------------------------------------------------------

  /** The space for a root table of 2^root entries and all its sub-tables. */
  ghost function Space(lens: Lens, root: nat, max: nat): nat {
    if root < max then Pow2(root) + |lens| + Pow2(max - root) else Pow2(root)
  }

  /** min and max bound the lengths in use. */
  ghost predicate Bounds(lens: Lens, min: nat, max: nat) {
    && 1 <= min <= max <= MAXBITS && Count(lens, min) > 0 && Count(lens, max) > 0
    && (forall l :: 1 <= l < min ==> Count(lens, l) == 0)
    && (forall l :: max < l <= MAXBITS ==> Count(lens, l) == 0)
  }

  /** work holds the symbols sorted by length, then by value. */
  ghost predicate Sorted(lens: Lens, work: seq<nat>) {
    forall s: nat :: Uses(lens, s) ==> Place(lens, s) < |work| && work[Place(lens, s)] == s
  }

  /** The current sub-table: where it is, what it is for, and how much space the
      tables so far can have taken. */
  ghost predicate InSubTable(lens: Lens, t: seq<Code>, root: nat, max: nat, cur: nat, len: nat, j: nat,
                             next: nat, curr: nat, used: nat, low: nat, m: nat, j0: nat)
    requires Uses(lens, cur) && root < lens[cur]
  {
    var p := Prefix(lens, cur, root);
    && 0 < curr < 16 && Pow2(root) <= next && used == next + Pow2(curr) <= |t|
    && low == Low(Huff(lens, cur), root) && LinkTo(t, low, curr, root, next)
    && SubsBelow(lens, t, root, len, j, p, next) && Taken(lens, t, root, len, j, next)
    && SizeEnough(lens, root, p, curr, max) && SizeTight(lens, root, p, curr, m)
    && Opens(lens, root, p, m, j0) && m <= len && (m == len ==> j0 <= j)
    && used <= Pow2(root) + Offs(lens, m) + j0 + Pow2(m - root) + Pow2(curr)
  }

  /** The symbol after cur in the sorted order. */
  lemma {:induction false} NextInOrder(lens: Lens, work: seq<nat>, cur: nat, len: nat, j: nat, max: nat)
    returns (cur': nat, M: nat, k: nat)
    requires Sorted(lens, work) && At(lens, cur, len, j) && len <= max && Count(lens, max) > 0
    requires j + 1 < Count(lens, len) || len < max
    ensures At(lens, cur', M, k) && Follows(lens, len, j, M, k) && len <= M <= max
    ensures Place(lens, cur') == Place(lens, cur) + 1 < |work| && work[Place(lens, cur) + 1] == cur'
    ensures M == len <==> j + 1 < Count(lens, len)
  {
    RankBound(lens, cur);
    if j + 1 < Count(lens, len) {
      M, k := len, j + 1;
    } else {
      M := NextLength(lens, len, max);
      k := 0;
      SkipLengths(lens, len, M);
    }
    cur' := Select(lens, |lens|, M, k);
  }
}
