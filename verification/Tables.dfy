/** What a decoding table must contain, and why looking a bit string up in such a
    table is the same as matching the canonical code. */
module Tables {
  import opened Bits
  import opened Canonical

  /** A decoding table entry (inftrees.h). */
  datatype Code = Code(op: byte, bits: byte, val: u16)

  datatype Kind = CODES | LENS | DISTS

  const INVALID: Code := Code(64, 1, 0)

  /** The number of symbols that each kind of code can have. */
  function Limit(kind: Kind): nat {
    match kind case CODES => 19 case LENS => 288 case DISTS => 32
  }

  // ---- Lengths and distances (section 3.2.5 of RFC 1951) --------------------------

  /** Extra bits and smallest length of length symbol s. */
  function LenExtra(s: nat): (k: nat)
    requires 257 <= s < 286
    ensures k <= 5
  {
    if s < 265 || s == 285 then 0 else (s - 261) / 4
  }

  function LenBase(s: nat): (n: u16)
    requires 257 <= s < 286
    ensures 3 <= n
  {
    if s < 265 then s - 254
    else if s == 285 then 258
    else ShlSmall(4 + (s - 261) % 4, LenExtra(s)); 3 + Shl(4 + (s - 261) % 4, LenExtra(s))
  }

  /** Extra bits and smallest distance of distance symbol d. */
  function DistExtra(d: nat): (k: nat)
    requires d < 30
    ensures k <= 13
  {
    if d < 4 then 0 else d / 2 - 1
  }

  function DistBase(d: nat): (n: u16)
    requires d < 30
    ensures 1 <= n
  {
    if d < 4 then d + 1
    else ShlSmall(2 + d % 2, DistExtra(d)); 1 + Shl(2 + d % 2, DistExtra(d))
  }

  /** The first eight lengths and the last have no extra bits, the first four distances neither;
      after that every four lengths and every two distances have one more. */
  lemma {:induction false} ExtraGrows(s: nat)
    ensures 257 <= s < 265 ==> LenExtra(s) == 0
    ensures 261 <= s < 281 ==> LenExtra(s + 4) == LenExtra(s) + 1
    ensures s < 4 ==> DistExtra(s) == 0
    ensures 2 <= s < 28 ==> DistExtra(s + 2) == DistExtra(s) + 1
  {}

  lemma {:induction false} ShlSmall(x: nat, k: nat)
    requires k <= 13 && x <= 7 && (x <= 3 || k <= 5)
    ensures Shl(x, k) <= 24576
  {
    Pow2Values();
    if k <= 5 {
      ShlMono(x, 8, k);
      ShlPow2(3, k);
      Pow2Mono(3 + k, 8);
    } else {
      ShlMono(x, 3, k);
      ShlAdd(1, 2, k);
      ShlOne(k);
      ShlPow2(1, k);
      Pow2Mono(k, 13);
      Pow2Mono(1 + k, 14);
    }
  }

  /** The length codes cover 3 to 257 without gap or overlap, and 285 is 258. */
  lemma {:induction false} LengthsTile(s: nat)
    requires 257 <= s < 284
    ensures LenBase(257) == 3 && LenBase(285) == 258 && LenExtra(285) == 0
    ensures LenBase(s + 1) == LenBase(s) + Pow2(LenExtra(s))
    ensures LenBase(284) + Pow2(LenExtra(284)) == 259
  {
    assert LenBase(284) == 3 + Shl(7, 5);
    Pow2Values();
    if s >= 264 {
      assert Shl(7, 5) == 224;
      var m, k := (s - 261) % 4, LenExtra(s);
      if s == 264 {
      } else if m < 3 {
        ShlAdd(4 + m, 1, k);
        ShlOne(k);
      } else {
        ShlAdd(7, 1, k);
        ShlOne(k);
        ShlShl(4, 1, k);
        assert Shl(4, 1) == 8 && Shl(4, 1 + k) == 2 * Shl(4, k);
      }
    }
  }

  lemma {:induction false} LastDistance()
    ensures DistBase(29) + Pow2(DistExtra(29)) == 32769
  {
    Pow2Values();
    ShlAdd(1, 2, 13);
    ShlOne(13);
    ShlPow2(1, 13);
    assert DistBase(29) == 1 + Shl(3, 13);
  }

  lemma {:induction false} SmallDistances()
    ensures DistBase(0) == 1 && DistBase(1) == 2 && DistBase(2) == 3 && DistBase(3) == 4 && DistBase(4) == 5
  {
    assert Shl(2, 1) == 4;
  }

  /** The distance codes cover 1 to 32768 without gap or overlap. */
  lemma {:induction false} DistancesTile(d: nat)
    requires d < 29
    ensures DistBase(0) == 1
    ensures DistBase(d + 1) == DistBase(d) + Pow2(DistExtra(d))
    ensures DistBase(29) + Pow2(DistExtra(29)) == 32769
  {
    LastDistance();
    SmallDistances();
    if d >= 4 { NextDistance(d); }
  }

  lemma {:induction false} NextDistance(d: nat)
    requires 4 <= d < 29
    ensures DistBase(d + 1) == DistBase(d) + Pow2(DistExtra(d))
  {
    hide Pow2;
    var k := DistExtra(d);
    ShlOne(k);
    ShlAdd(2 + d % 2, 1, k);
    ShlShl(2, 1, k);
    assert Shl(2, 1) == 4 && Shl(2, 1 + k) == 2 * Shl(2, k);
  }

  lemma {:induction false} LengthMax(s: nat)
    requires 257 <= s < 286
    ensures LenBase(s) + Pow2(LenExtra(s)) <= 259
    decreases 286 - s
  {
    Pow2Values();
    if s < 284 {
      LengthsTile(s);
      LengthMax(s + 1);
    } else {
      LengthsTile(283);
    }
  }

  lemma {:induction false} DistanceMax(d: nat)
    requires d < 30
    ensures DistBase(d) + Pow2(DistExtra(d)) <= 32769
    decreases 30 - d
  {
    DistancesTile(0);
    if d >= 29 {
    } else {
      DistancesTile(d);
      DistanceMax(d + 1);
    }
  }

  /** The entry for a symbol whose code has n bits left. */
  function Entry(kind: Kind, s: nat, n: byte): Code
    requires s < Limit(kind)
  {
    match kind
    case CODES => Code(0, n, s)
    case LENS =>
      if s < 256 then Code(0, n, s)
      else if s == 256 then Code(96, n, 0)
      else if s < 286 then Code(16 + LenExtra(s), n, LenBase(s))
      else Code(if s == 286 then 201 else 196, n, 0)
    case DISTS =>
      if s < 30 then Code(16 + DistExtra(s), n, DistBase(s)) else Code(64, n, 0)
  }

  predicate IsLink(e: Code) { 0 < e.op < 16 }

  lemma {:induction false} EntryIsNoLink(kind: Kind, s: nat, n: byte)
    requires s < Limit(kind)
    ensures !IsLink(Entry(kind, s, n)) && Entry(kind, s, n).bits == n
  {}

  // ---- Which sets of lengths are codes ------------------------------------------

  ghost predicate Empty(lens: Lens) { forall i :: 0 <= i < |lens| ==> lens[i] == 0 }

  ghost predicate AtMost(lens: Lens, b: nat) { forall i :: 0 <= i < |lens| ==> lens[i] <= b }

  /** No symbol at all, a complete code, or, except for the code length code, a
      single code of one bit. */
  ghost predicate Acceptable(kind: Kind, lens: Lens) {
    Empty(lens) || Complete(lens) || (!kind.CODES? && Fits(lens) && AtMost(lens, 1))
  }

  /** Said with the Kraft sum alone: refused are codes with a sum above one, and incomplete
      ones but for a lone code of one bit, which is not for code lengths. */
  lemma {:induction false} RefusedIff(kind: Kind, lens: Lens)
    ensures !Acceptable(kind, lens) <==>
      || Kraft(lens) > Pow2(15)
      || (0 < Kraft(lens) < Pow2(15) && (kind.CODES? || exists i :: 0 <= i < |lens| && lens[i] > 1))
  {
    if Empty(lens) { KraftEmpty(lens, |lens|); } else { KraftSome(lens, |lens|); }
  }

  lemma {:induction false} KraftSome(lens: Lens, n: nat)
    requires n <= |lens|
    ensures KraftTo(lens, n) == 0 ==> forall i :: 0 <= i < n ==> lens[i] == 0
  {
    if n == 0 {
    } else {
      KraftSome(lens, n - 1);
    }
  }

  // ---- Table contents -------------------------------------------------------------

  /** The root bits of a long code, as a number. */
  function Prefix(lens: Lens, s: nat, root: nat): nat
    requires s < |lens| && root <= lens[s]
  {
    Shr(CodeOf(lens, s), lens[s] - root)
  }

  /** Table t decodes symbol s: directly, or after one link. */
  ghost predicate Holds(kind: Kind, lens: Lens, t: seq<Code>, root: nat, s: nat)
    requires Uses(lens, s) && |lens| <= Limit(kind)
  {
    var h, n := Huff(lens, s), lens[s];
    Pow2(root) <= |t| &&
    if n <= root then
      SubHolds(t, 0, root, n, h, Entry(kind, s, n))
    else
      Low(h, root) < Pow2(root) &&
      var e := t[Low(h, root)];
      IsLink(e) && e.bits == root && n <= root + e.op && Pow2(root) <= e.val && e.val + Pow2(e.op) <= |t| &&
      SubHolds(t, e.val, e.op, n - root, Shr(h, root), Entry(kind, s, n - root))
  }

  /** The sub-table of 2^curr entries at next holds entry e wherever the low n
      index bits are h. */
  ghost predicate SubHolds(t: seq<Code>, next: nat, curr: nat, n: nat, h: nat, e: Code)
    requires next + Pow2(curr) <= |t|
  {
    forall i :: 0 <= i < Pow2(curr) && Low(i, n) == h ==> t[next + i] == e
  }

  ghost predicate TableOK(kind: Kind, lens: Lens, t: seq<Code>, root: nat) {
    && |lens| <= Limit(kind)
    && 1 <= root <= MAXBITS
    && Pow2(root) <= |t|
    && Acceptable(kind, lens)
    && (forall s :: Uses(lens, s) ==> Holds(kind, lens, t, root, s))
    && (Empty(lens) ==> root == 1 && t[0] == t[1] == INVALID)
    && (!Complete(lens) && !Empty(lens) ==> root == 1 && t[1] == INVALID)
    && (forall i :: Pow2(root) <= i < |t| ==> Allocated(lens, t, root, i))
  }

  /** Slot i is in the sub-table that the code of symbol s leads to. */
  ghost predicate InTableOf(lens: Lens, t: seq<Code>, root: nat, s: nat, i: nat)
    requires s < |lens|
  {
    var l := Low(Huff(lens, s), root);
    l < |t| && t[l].val <= i < t[l].val + Pow2(t[l].op)
  }

  /** Slot i is in a sub-table that some code leads to, and in no other. */
  ghost predicate Allocated(lens: Lens, t: seq<Code>, root: nat, i: nat) {
    exists s: nat :: AllocatedTo(lens, t, root, s, i)
  }

  ghost predicate AllocatedTo(lens: Lens, t: seq<Code>, root: nat, s: nat, i: nat) {
    && Uses(lens, s) && lens[s] > root && InTableOf(lens, t, root, s, i)
    && forall u: nat :: Uses(lens, u) && lens[u] > root && InTableOf(lens, t, root, u, i) ==>
         Low(Huff(lens, u), root) == Low(Huff(lens, s), root)
  }

  // ---- Looking up ------------------------------------------------------------------

  /** The decoder's lookup: the root entry, or the entry one link away with the
      bits of both steps. */
  function Lookup(t: seq<Code>, root: nat, x: nat): (e: Code)
    requires Low(x, root) < |t|
    requires IsLink(t[Low(x, root)]) ==> LinkInRange(t, t[Low(x, root)], x)
  {
    var e := t[Low(x, root)];
    if IsLink(e) then
      var f := t[e.val + Low(Shr(x, e.bits), e.op)];
      Code(f.op, e.bits + f.bits, f.val)
    else e
  }

  predicate LinkInRange(t: seq<Code>, e: Code, x: nat) {
    && e.val + Low(Shr(x, e.bits), e.op) < |t|
    && e.bits + t[e.val + Low(Shr(x, e.bits), e.op)].bits < 256
  }

  ghost predicate CanLookup(t: seq<Code>, root: nat, x: nat) {
    Low(x, root) < |t| && (IsLink(t[Low(x, root)]) ==> LinkInRange(t, t[Low(x, root)], x))
  }

  lemma {:induction false} SubFinds(t: seq<Code>, next: nat, curr: nat, n: nat, h: nat, e: Code, x: nat)
    requires next + Pow2(curr) <= |t| && SubHolds(t, next, curr, n, h, e)
    requires n <= curr && Low(x, n) == h
    ensures Low(x, curr) < Pow2(curr) && t[next + Low(x, curr)] == e
  {
    Split(x, curr);
    LowLow(x, n, curr);
  }

  /** A bit string that begins with the code of s looks s up, with its length. */
  lemma {:induction false} LookupFinds(kind: Kind, lens: Lens, t: seq<Code>, root: nat, s: nat, x: nat)
    requires TableOK(kind, lens, t, root) && Starts(lens, s, x)
    ensures CanLookup(t, root, x)
    ensures Lookup(t, root, x) == Entry(kind, s, lens[s])
    ensures lens[s] <= root <==> !IsLink(t[Low(x, root)])
    ensures lens[s] > root ==> t[Low(x, root)].bits == root
  {
    assert Holds(kind, lens, t, root, s);
    if lens[s] <= root {
      EntryIsNoLink(kind, s, lens[s]);
      SubFinds(t, 0, root, lens[s], Huff(lens, s), Entry(kind, s, lens[s]), x);
    } else {
      LookupLong(kind, lens, t, root, s, x, Huff(lens, s), lens[s]);
    }
  }

  lemma {:induction false} LookupLong(kind: Kind, lens: Lens, t: seq<Code>, root: nat, s: nat, x: nat, h: nat, n: nat)
    requires Uses(lens, s) && |lens| <= Limit(kind) && root < n <= MAXBITS
    requires n == lens[s] && h == Huff(lens, s) && Low(x, n) == h && Holds(kind, lens, t, root, s)
    ensures CanLookup(t, root, x) && Lookup(t, root, x) == Entry(kind, s, n)
    ensures IsLink(t[Low(x, root)]) && t[Low(x, root)].bits == root
  {
    LowLow(x, root, n);
    Split(x, root);
    var e := t[Low(x, root)];
    var f := Entry(kind, s, n - root);
    SubFinds(t, e.val, e.op, n - root, Shr(h, root), f, Shr(x, root));
  }

  /** Fits holds for every acceptable set of lengths. */
  lemma {:induction false} AcceptableFits(kind: Kind, lens: Lens)
    requires Acceptable(kind, lens)
    ensures Fits(lens)
  {
    if Empty(lens) { KraftEmpty(lens, |lens|); }
  }

  lemma {:induction false} KraftEmpty(lens: Lens, n: nat)
    requires Empty(lens) && n <= |lens|
    ensures KraftTo(lens, n) == 0
  {
    if n == 0 {
    } else {
      KraftEmpty(lens, n - 1);
    }
  }

  /** In an incomplete code with a symbol, that symbol has the one-bit code 0 and
      is alone. */
  lemma {:induction false} LoneCode(kind: Kind, lens: Lens) returns (s: nat)
    requires Acceptable(kind, lens) && !Complete(lens) && !Empty(lens)
    ensures Uses(lens, s) && lens[s] == 1 && Huff(lens, s) == 0
    ensures forall t: nat :: Uses(lens, t) ==> t == s
  {
    s :| 0 <= s < |lens| && lens[s] != 0;
    OneCode(lens);
    RankBound(lens, s);
    assert Count(lens, 0) == 0 && NextCode(lens, 0) == 0 && NextCode(lens, 1) == 0;
    RevZero(1);
    forall t: nat | Uses(lens, t) ensures t == s {
      RankBound(lens, t);
      RankUnique(lens, s, t);
    }
  }

  lemma {:induction false} OneCode(lens: Lens)
    requires AtMost(lens, 1) && Kraft(lens) < Pow2(MAXBITS)
    ensures Count(lens, 1) <= 1
  {
    var n := CountTo(lens, |lens|, 1);
    KraftOneBit(lens, |lens|, 14);
    ShlPow2(1, 14);
    ShlMono(Pow2(1), n, 14);
    assert Pow2(1) == 2 * Pow2(0);
  }

  lemma {:induction false} KraftOneBit(lens: Lens, n: nat, e: nat)
    requires AtMost(lens, 1) && n <= |lens| && e == MAXBITS - 1
    ensures KraftTo(lens, n) == Shl(CountTo(lens, n, 1), e)
  {
    if n == 0 {
      ShlZero(e);
    } else {
      KraftOneBit(lens, n - 1, e);
      assert lens[n - 1] <= 1;
      ShlAdd(CountTo(lens, n - 1, 1), 1, e);
      ShlOne(e);
    }
  }

  /** A bit string that begins with no code looks up the invalid marker, and that
      happens only when the code is not complete. */
  lemma {:induction false} LookupMisses(kind: Kind, lens: Lens, t: seq<Code>, root: nat, x: nat)
    requires TableOK(kind, lens, t, root)
    requires forall s: nat :: !Starts(lens, s, x)
    ensures !Complete(lens) && CanLookup(t, root, x) && Lookup(t, root, x) == INVALID
    ensures !IsLink(t[Low(x, root)])
  {
    if Complete(lens) {
      var s := FindCode(lens, x, 0);
      assert false;
    }
    assert Low(x, 1) == x % 2 + 2 * Low(x / 2, 0);
    if !Empty(lens) {
      var s := LoneCode(kind, lens);
      assert !Starts(lens, s, x);
    }
  }

  /** The converse: whatever the lookup finds is there in the bit string. */
  lemma {:induction false} LookupSound(kind: Kind, lens: Lens, t: seq<Code>, root: nat, x: nat)
    returns (s: nat, found: bool)
    requires TableOK(kind, lens, t, root)
    ensures CanLookup(t, root, x)
    ensures found ==>
      && Starts(lens, s, x)
      && Lookup(t, root, x) == Entry(kind, s, lens[s])
      && (lens[s] <= root <==> !IsLink(t[Low(x, root)]))
      && (lens[s] > root ==> t[Low(x, root)].bits == root)
    ensures !found ==>
      && (forall u: nat :: !Starts(lens, u, x))
      && !Complete(lens) && Lookup(t, root, x) == INVALID
      && !IsLink(t[Low(x, root)])
  {
    s, found := 0, exists u: nat :: Starts(lens, u, x);
    if found {
      s :| Starts(lens, s, x);
      LookupFinds(kind, lens, t, root, s, x);
    } else {
      LookupMisses(kind, lens, t, root, x);
    }
  }

  /** The lookup of x ends in slot i. */
  ghost predicate EndsIn(t: seq<Code>, root: nat, x: nat, i: nat) {
    CanLookup(t, root, x) &&
    var e := t[Low(x, root)];
    i == if IsLink(e) then e.val + Low(Shr(x, e.bits), e.op) else Low(x, root)
  }

  /** Slot i holds symbol s, whose code takes lookups there. */
  ghost predicate SlotHolds(kind: Kind, lens: Lens, t: seq<Code>, root: nat, i: nat, s: nat, x: nat)
    requires |lens| <= Limit(kind) && i < |t|
  {
    && Starts(lens, s, x) && EndsIn(t, root, x, i)
    && t[i] == Entry(kind, s, if lens[s] <= root then lens[s] else lens[s] - root)
  }

  /** In the table of a complete code every slot is a link of the root table or holds the
      symbol whose code leads there: nothing is left unwritten. */
  lemma {:induction false} EverySlot(kind: Kind, lens: Lens, t: seq<Code>, root: nat, i: nat)
    requires TableOK(kind, lens, t, root) && Complete(lens) && i < |t|
    ensures (i < Pow2(root) && IsLink(t[i])) || exists s: nat, x: nat :: SlotHolds(kind, lens, t, root, i, s, x)
  {
    hide Entry, Complete;
    if i < Pow2(root) {
      LowSmall(i, root);
      if !IsLink(t[i]) {
        var s, found := LookupSound(kind, lens, t, root, i);
        assert SlotHolds(kind, lens, t, root, i, s, i);
      }
    } else {
      assert Allocated(lens, t, root, i);
      var s0: nat :| AllocatedTo(lens, t, root, s0, i);
      assert Holds(kind, lens, t, root, s0);
      SubSlot(kind, lens, t, root, i, Low(Huff(lens, s0), root));
    }
  }

  /** A slot in the sub-table behind root entry l. */
  lemma {:induction false} SubSlot(kind: Kind, lens: Lens, t: seq<Code>, root: nat, i: nat, l: nat)
    requires TableOK(kind, lens, t, root) && Complete(lens) && i < |t| && l < Pow2(root)
    requires IsLink(t[l]) && t[l].bits == root && t[l].val <= i < t[l].val + Pow2(t[l].op)
    ensures exists s: nat, x: nat :: SlotHolds(kind, lens, t, root, i, s, x)
  {
    hide Entry, Complete, Shl, Shr, Low, Starts, Acceptable, Holds;
    var e := t[l];
    var x: nat := l + Shl(i - e.val, root);
    Join(l, i - e.val, root);
    LowSmall(i - e.val, e.op);
    var s, found := LookupSound(kind, lens, t, root, x);
    StartsUses(lens, s, x);
    EntryParts(kind, s, lens[s], lens[s] - root);
    assert SlotHolds(kind, lens, t, root, i, s, x);
  }

  /** No number begins with the codes of two symbols. */
  lemma {:induction false} StartsOne(lens: Lens, s: nat, u: nat, x: nat, y: nat, n: nat)
    requires Fits(lens) && Starts(lens, s, x) && Starts(lens, u, y)
    requires Low(x, n) == Low(y, n) && lens[s] <= n && lens[u] <= n
    ensures s == u
  {
    hide Huff, Fits;
    LowLow(x, lens[s], n);
    LowLow(y, lens[s], n);
    LowLow(x, lens[u], n);
    LowLow(y, lens[u], n);
    if s != u {
      if lens[s] <= lens[u] {
        PrefixFree(lens, s, u);
        LowLow(y, lens[s], lens[u]);
      } else {
        PrefixFree(lens, u, s);
        LowLow(x, lens[u], lens[s]);
      }
    }
  }

  /** Where the lookup of a code ends: in the root table, or in the sub-table behind its
      root bits, which is behind the root table. */
  lemma {:induction false} EndOfCode(kind: Kind, lens: Lens, t: seq<Code>, root: nat, s: nat, x: nat, i: nat)
    requires TableOK(kind, lens, t, root) && Starts(lens, s, x) && EndsIn(t, root, x, i)
    ensures lens[s] <= root ==> i == Low(x, root) < Pow2(root)
    ensures lens[s] > root ==>
      && Low(Huff(lens, s), root) == Low(x, root) < |t| && Pow2(root) <= i < |t|
      && InTableOf(lens, t, root, s, i)
      && var e := t[Low(x, root)];
         i == e.val + Low(Shr(x, root), e.op) && lens[s] <= root + e.op
  {
    hide Entry, SubHolds, Complete, Allocated, Acceptable;
    LookupFinds(kind, lens, t, root, s, x);
    assert Holds(kind, lens, t, root, s);
    Split(x, root);
    if lens[s] > root {
      LowLow(x, root, lens[s]);
      var e := t[Low(x, root)];
      Split(Shr(x, root), e.op);
    }
  }

  /** No two codes share a slot: lookups that begin with the codes of different symbols end
      in different slots. */
  lemma {:induction false} SlotUnique(kind: Kind, lens: Lens, t: seq<Code>, root: nat, i: nat, s: nat, x: nat, u: nat,
                                      y: nat)
    requires TableOK(kind, lens, t, root)
    requires Starts(lens, s, x) && EndsIn(t, root, x, i) && Starts(lens, u, y) && EndsIn(t, root, y, i)
    ensures s == u
  {
    hide Entry, Starts, InTableOf, Huff, EndsIn, Acceptable, Holds;
    EndOfCode(kind, lens, t, root, s, x, i);
    EndOfCode(kind, lens, t, root, u, y, i);
    AcceptableFits(kind, lens);
    StartsUses(lens, s, x);
    StartsUses(lens, u, y);
    if lens[s] <= root {
      StartsOne(lens, s, u, x, y, root);
    } else {
      assert Allocated(lens, t, root, i);
      var e := t[Low(x, root)];
      SameLow(x, y, root, e.op);
      StartsOne(lens, s, u, x, y, root + e.op);
    }
  }

  lemma {:induction false} SameLow(x: nat, y: nat, m: nat, n: nat)
    requires Low(x, m) == Low(y, m) && Low(Shr(x, m), n) == Low(Shr(y, m), n)
    ensures Low(x, m + n) == Low(y, m + n)
  {
    LowLow(x, m, m + n);
    LowLow(y, m, m + n);
    Split(Low(x, m + n), m);
    Split(Low(y, m + n), m);
  }

  lemma {:induction false} StartsUses(lens: Lens, s: nat, x: nat)
    requires Starts(lens, s, x)
    ensures Uses(lens, s)
  {}

  lemma {:induction false} EntryParts(kind: Kind, s: nat, m: byte, n: byte)
    requires s < Limit(kind)
    ensures var e, f := Entry(kind, s, m), Entry(kind, s, n);
            e.op == f.op && e.val == f.val && e.bits == m && f.bits == n
  {}
}
