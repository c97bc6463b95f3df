/** The main loop of inflate_table. */
module BuildTable {
  import opened Bits
  import opened Canonical
  import opened Tables
  import opened TableSteps
  import opened InfTrees

  /** Everything the loop knows between two symbols. */
  ghost predicate Loop(kind: Kind, lens: Lens, t: seq<Code>, root: nat, max: nat, cur: nat, len: nat, j: nat,
                       next: nat, curr: nat, drop: nat, used: nat, low: nat, m: nat, j0: nat)
    requires |lens| <= Limit(kind)
  {
    && At(lens, cur, len, j) && len <= max
    && Built(kind, lens, t, root, len, j)
    && if drop == 0 then len <= root && next == 0 && curr == root && used == Pow2(root) <= |t| && low == NONE
       else drop == root < len && InSubTable(lens, t, root, max, cur, len, j, next, curr, used, low, m, j0)
  }

  /** Everything the loop knows once the entries of the current symbol are stored. */
  ghost predicate AfterStore(kind: Kind, lens: Lens, t: seq<Code>, root: nat, cur: nat, len: nat, j: nat,
                             next: nat, curr: nat, drop: nat, low: nat)
    requires |lens| <= Limit(kind) && Uses(lens, cur) && (drop != 0 ==> root < lens[cur])
  {
    && Built(kind, lens, t, root, len, j + 1)
    && (drop != 0 ==>
        && LinkTo(t, low, curr, root, next)
        && SubsBelow(lens, t, root, len, j + 1, Prefix(lens, cur, root), next)
        && Taken(lens, t, root, len, j + 1, next))
  }

  /** Store the entries of the current symbol. */
  method StoreSymbol(kind: Kind, lens: Lens, tab: array<Code>, t0: nat, root: nat, max: nat,
                     cur: nat, len: nat, ghost j: nat, huff: nat,
                     next: nat, curr: nat, drop: nat, ghost used: nat, ghost low: nat, ghost m: nat, ghost j0: nat)
    requires |lens| <= Limit(kind) && Fits(lens) && 1 <= root <= max <= MAXBITS && t0 <= tab.Length
    requires Loop(kind, lens, tab[t0..], root, max, cur, len, j, next, curr, drop, used, low, m, j0)
    requires huff == Huff(lens, cur)
    modifies tab
    ensures AfterStore(kind, lens, tab[t0..], root, cur, len, j, next, curr, drop, low)
    ensures forall i :: 0 <= i < t0 ==> tab[i] == old(tab[i])
  {
    hide Stored, Taken, Built, SubsBelow, Prefix, CodeOf, Entry, SizeTight, Opens;
    var e := MakeEntry(kind, cur, len - drop);
    ghost var t := tab[t0..];
    if drop == 0 {
      RevBound(len, CodeOf(lens, cur));
      Replicate(tab, t0, next, curr, len - drop, Shr(huff, drop), e);
      AddShort(kind, lens, t, tab[t0..], root, cur, len, j);
    } else {
      SizeCovers(lens, root, curr, max, cur);
      PrefixIsLow(lens, cur, root);
      Replicate(tab, t0, next, curr, len - drop, Shr(huff, drop), e);
      AddLong(kind, lens, t, tab[t0..], root, cur, len, j, next, curr);
      TakenStored(lens, t, tab[t0..], root, cur, len, j, next, curr, len - drop, Shr(huff, drop), e);
    }
  }

  // ---- From one symbol to the next ---------------------------------------------------

  lemma {:induction false} CarryBuilt(kind: Kind, lens: Lens, t: seq<Code>, root: nat, len: nat, j: nat, M: nat, k: nat)
    requires |lens| <= Limit(kind) && Follows(lens, len, j, M, k) && Built(kind, lens, t, root, len, j + 1)
    ensures Built(kind, lens, t, root, M, k)
  {
    forall s: nat | Done(lens, s, M, k) ensures Holds(kind, lens, t, root, s) {
      if len < M { DoneNextLength(lens, len, M, s); }
    }
  }

  lemma {:induction false} CarrySubs(lens: Lens, t: seq<Code>, root: nat, len: nat, j: nat, M: nat, k: nat, p: int,
                                     lim: nat)
    requires Follows(lens, len, j, M, k) && SubsBelow(lens, t, root, len, j + 1, p, lim)
    ensures SubsBelow(lens, t, root, M, k, p, lim)
  {
    forall s: nat | Done(lens, s, M, k) && lens[s] > root && Prefix(lens, s, root) != p
      ensures SubBelow(lens, t, root, s, lim)
    {
      if len < M { DoneNextLength(lens, len, M, s); }
    }
  }

  lemma {:induction false} CarryTaken(lens: Lens, t: seq<Code>, root: nat, len: nat, j: nat, M: nat, k: nat, lim: nat)
    requires Follows(lens, len, j, M, k) && Taken(lens, t, root, len, j + 1, lim) && Pow2(root) <= |t|
    ensures Taken(lens, t, root, M, k, lim)
  {
    hide Taken;
    forall s: nat ensures Done(lens, s, len, j + 1) <==> Done(lens, s, M, k) {
      if len < M { DoneNextLength(lens, len, M, s); }
    }
    forall s: nat | Done(lens, s, M, k) && lens[s] > root ensures Low(Huff(lens, s), root) < |t| {
      Split(Huff(lens, s), root);
    }
    TakenKeeps(lens, t, t, root, len, j + 1, M, k, lim);
  }

  /** When the next symbol needs no new sub-table, the loop goes on as it is. */
  lemma {:induction false} StayInTable(kind: Kind, lens: Lens, t: seq<Code>, t': seq<Code>, root: nat, max: nat,
                    cur: nat, len: nat, j: nat, cur': nat, M: nat, k: nat,
                    next: nat, curr: nat, drop: nat, used: nat, low: nat, m: nat, j0: nat)
    requires |lens| <= Limit(kind) && Fits(lens) && 1 <= root <= max <= MAXBITS && |t| == |t'|
    requires Loop(kind, lens, t, root, max, cur, len, j, next, curr, drop, used, low, m, j0)
    requires At(lens, cur', M, k) && M <= max && Follows(lens, len, j, M, k)
    requires AfterStore(kind, lens, t', root, cur, len, j, next, curr, drop, low)
    requires root < M ==> Low(Huff(lens, cur'), root) == low
    ensures Loop(kind, lens, t', root, max, cur', M, k, next, curr, drop, used, low, m, j0)
  {
    CarryBuilt(kind, lens, t', root, len, j, M, k);
    if drop == 0 {
      if root < M {
        PrefixIsLow(lens, cur', root);
        Pow2Mono(root, 15);
        Pow2Values();
      }
    } else {
      PrefixIsLow(lens, cur, root);
      PrefixIsLow(lens, cur', root);
      RevInjective(root, Prefix(lens, cur, root), Prefix(lens, cur', root));
      CarrySubs(lens, t', root, len, j, M, k, Prefix(lens, cur, root), next);
      CarryTaken(lens, t', root, len, j, M, k, next);
    }
  }

  /** A new sub-table is due: where its codes begin, and the space taken so far. */
  lemma {:induction false} LeaveTable(kind: Kind, lens: Lens, t: seq<Code>, t': seq<Code>, root: nat, max: nat,
                   cur: nat, len: nat, j: nat, cur': nat, M: nat, k: nat,
                   next: nat, curr: nat, drop: nat, used: nat, low: nat, m: nat, j0: nat)
    requires |lens| <= Limit(kind) && Fits(lens) && 1 <= root <= max <= MAXBITS && |t| == |t'|
    requires Loop(kind, lens, t, root, max, cur, len, j, next, curr, drop, used, low, m, j0)
    requires At(lens, cur', M, k) && M <= max && Follows(lens, len, j, M, k)
    requires AfterStore(kind, lens, t', root, cur, len, j, next, curr, drop, low)
    requires root < M && Low(Huff(lens, cur'), root) != low
    ensures Opens(lens, root, Prefix(lens, cur', root), M, k)
    ensures used <= Pow2(root) + Offs(lens, M) + k + Pow2(M - root)
    ensures SubsBelow(lens, t', root, M, k, -1, used) && Taken(lens, t', root, M, k, used)
    ensures forall s: nat :: Done(lens, s, M, k) && lens[s] > root ==> Prefix(lens, s, root) != Prefix(lens, cur', root)
  {
    hide TakenAt;
    RankBound(lens, cur');
    if drop != 0 {
      PrefixIsLow(lens, cur, root);
      TakenMore(lens, t', root, cur, len, j, next, curr);
      CarryTaken(lens, t', root, len, j, M, k, used);
    }
    if drop == 0 {
      PrefixStep(lens, root, cur, len, j, cur', M, k);
      forall s: nat | Done(lens, s, M, k) ensures lens[s] <= root {
        if len < M { DoneNextLength(lens, len, M, s); }
      }
    } else {
      LeavePrefix(lens, t, root, max, cur, len, j, cur', M, k, next, curr, used, low, m, j0);
      forall s: nat | Done(lens, s, M, k) && lens[s] > root
        ensures Prefix(lens, s, root) != Prefix(lens, cur', root) && SubBelow(lens, t', root, s, used)
      {
        if len < M { DoneNextLength(lens, len, M, s); }
        LeaveOne(lens, t', root, s, cur, len, j, next, curr, used, low);
      }
    }
  }

  lemma {:induction false} LeavePrefix(lens: Lens, t: seq<Code>, root: nat, max: nat, cur: nat, len: nat, j: nat,
                    cur': nat, M: nat, k: nat, next: nat, curr: nat, used: nat, low: nat, m: nat, j0: nat)
    requires Fits(lens) && At(lens, cur, len, j) && root < len
    requires InSubTable(lens, t, root, max, cur, len, j, next, curr, used, low, m, j0)
    requires At(lens, cur', M, k) && Follows(lens, len, j, M, k) && k <= Count(lens, M)
    requires Low(Huff(lens, cur'), root) != low
    ensures Prefix(lens, cur, root) < Prefix(lens, cur', root)
    ensures Opens(lens, root, Prefix(lens, cur', root), M, k)
    ensures used <= Pow2(root) + Offs(lens, M) + k + Pow2(M - root)
  {
    PrefixStep(lens, root, cur, len, j, cur', M, k);
    PrefixIsLow(lens, cur, root);
    PrefixIsLow(lens, cur', root);
    LeaveSpace(lens, root, Prefix(lens, cur, root), curr, used, m, j0, cur', M, k);
  }

  lemma {:induction false} LeaveSpace(lens: Lens, root: nat, p: nat, curr: nat, used: nat, m: nat, j0: nat, cur': nat,
                                      M: nat, k: nat)
    requires Opens(lens, root, p, m, j0) && SizeTight(lens, root, p, curr, m)
    requires At(lens, cur', M, k) && m <= M && (m == M ==> j0 <= k) && p < Prefix(lens, cur', root)
    requires used <= Pow2(root) + Offs(lens, m) + j0 + Pow2(m - root) + Pow2(curr)
    ensures used <= Pow2(root) + Offs(lens, M) + k + Pow2(M - root)
  {
    RankBound(lens, cur');
    ShrBound(CodeOf(lens, cur'), M - root, p + 1);
    PrefixCost(lens, root, p, m, j0, M, k);
    SizeReached(lens, root, p, curr, m, cur');
    Pow2Mono(curr, M - root);
  }

  lemma {:induction false} LeaveOne(lens: Lens, t: seq<Code>, root: nat, s: nat, cur: nat, len: nat, j: nat,
                 next: nat, curr: nat, used: nat, low: nat)
    requires Fits(lens) && At(lens, cur, len, j) && Done(lens, s, len, j + 1) && root < lens[s]
    requires Pow2(root) <= next && used == next + Pow2(curr) && low == Low(Huff(lens, cur), root)
    requires LinkTo(t, low, curr, root, next)
    requires SubsBelow(lens, t, root, len, j + 1, Prefix(lens, cur, root), next)
    ensures Prefix(lens, s, root) <= Prefix(lens, cur, root) && SubBelow(lens, t, root, s, used)
  {
    DoneNextRank(lens, cur, len, j, s);
    if s != cur { PrefixOrder(lens, root, s, cur, len, j); }
    PrefixIsLow(lens, s, root);
    PrefixIsLow(lens, cur, root);
    if Prefix(lens, s, root) != Prefix(lens, cur, root) { assert SubBelow(lens, t, root, s, next); }
  }

  lemma {:induction false} TakenLink(lens: Lens, t: seq<Code>, root: nat, cur: nat, len: nat, j: nat, e: Code, lim: nat)
    requires Fits(lens) && At(lens, cur, len, j) && root < len && Low(Huff(lens, cur), root) < |t|
    requires forall s: nat :: Done(lens, s, len, j) && lens[s] > root ==>
             Prefix(lens, s, root) != Prefix(lens, cur, root)
    requires Taken(lens, t, root, len, j, lim) && Pow2(root) <= |t|
    ensures Taken(lens, t[Low(Huff(lens, cur), root) := e], root, len, j, lim)
  {
    hide Taken, Prefix;
    var t' := t[Low(Huff(lens, cur), root) := e];
    forall s: nat | Done(lens, s, len, j) && lens[s] > root
      ensures |t| > Low(Huff(lens, s), root) != Low(Huff(lens, cur), root)
    {
      PrefixIsLow(lens, s, root);
      PrefixIsLow(lens, cur, root);
      RevInjective(root, Prefix(lens, s, root), Prefix(lens, cur, root));
    }
    TakenKeeps(lens, t, t', root, len, j, len, j, lim);
  }

  /** A fresh link puts the loop into the new sub-table. */
  lemma {:induction false} Linked(kind: Kind, lens: Lens, t: seq<Code>, root: nat, max: nat, cur: nat, len: nat, j: nat,
               used: nat, curr: nat, low: nat, e: Code)
    requires |lens| <= Limit(kind) && Complete(lens) && 1 <= root < len <= max <= MAXBITS
    requires At(lens, cur, len, j) && Opens(lens, root, Prefix(lens, cur, root), len, j)
    requires Built(kind, lens, t, root, len, j) && SubsBelow(lens, t, root, len, j, -1, used)
    requires Taken(lens, t, root, len, j, used)
    requires forall s: nat :: Done(lens, s, len, j) && lens[s] > root ==>
             Prefix(lens, s, root) != Prefix(lens, cur, root)
    requires Pow2(root) <= used <= Pow2(root) + Offs(lens, len) + j + Pow2(len - root)
    requires used + Pow2(curr) <= |t|
    requires SizeEnough(lens, root, Prefix(lens, cur, root), curr, max)
    requires SizeTight(lens, root, Prefix(lens, cur, root), curr, len)
    requires low == Low(Huff(lens, cur), root) && e.op == curr && e.bits == root && e.val == used
    ensures low < |t|
    ensures Loop(kind, lens, t[low := e], root, max, cur, len, j, used, curr, root, used + Pow2(curr), low, len, j)
  {
    PrefixIsLow(lens, cur, root);
    AddLink(kind, lens, t, root, cur, len, j, e, used);
    TakenLink(lens, t, root, cur, len, j, e, used);
  }

  /** The space that the table for root prefix p can bring the total to. */
  lemma {:induction false} SpaceSuffices(lens: Lens, root: nat, max: nat, p: nat, len: nat, j: nat, used: nat,
                                         curr: nat)
    requires Complete(lens) && Opens(lens, root, p, len, j) && p < Pow2(root) && len <= max && root + curr <= max
    requires used <= Pow2(root) + Offs(lens, len) + j + Pow2(len - root)
    ensures used + Pow2(curr) <= Space(lens, root, max)
  {
    PrefixRoom(lens, root, p, len, j);
    Pow2Mono(curr, max - root);
  }

  /** Start the sub-table of the current symbol behind the tables so far, and link
      it to its root entry. */
  method OpenSubTable(kind: Kind, lens: Lens, tab: array<Code>, t0: nat, root: nat, max: nat, count: array<nat>,
                      ghost cur: nat, len: nat, ghost j: nat, huff: nat, next: nat, used: nat)
    returns (over: bool, curr: nat, used': nat, low: nat)
    requires |lens| <= Limit(kind) && Complete(lens) && 1 <= root < len <= max <= MAXBITS
    requires t0 + Space(lens, root, max) <= tab.Length && Space(lens, root, max) < 65536
    requires count.Length == MAXBITS + 1 && count[len] + j == Count(lens, len)
    requires forall l :: len < l <= MAXBITS ==> count[l] == Count(lens, l)
    requires At(lens, cur, len, j) && huff == Huff(lens, cur) && Opens(lens, root, Prefix(lens, cur, root), len, j)
    requires Built(kind, lens, tab[t0..], root, len, j) && SubsBelow(lens, tab[t0..], root, len, j, -1, used)
    requires Taken(lens, tab[t0..], root, len, j, used)
    requires forall s: nat :: Done(lens, s, len, j) && lens[s] > root ==>
             Prefix(lens, s, root) != Prefix(lens, cur, root)
    requires Pow2(root) <= next == used <= Pow2(root) + Offs(lens, len) + j + Pow2(len - root)
    modifies tab
    ensures over ==> kind.LENS? && Space(lens, root, max) >= ENOUGH - MAXD
    ensures !over ==> Loop(kind, lens, tab[t0..], root, max, cur, len, j, next, curr, root, used', low, len, j)
    ensures forall i :: 0 <= i < t0 ==> tab[i] == old(tab[i])
  {
    ghost var p := Prefix(lens, cur, root);
    PrefixIsLow(lens, cur, root);
    curr := SubTableSize(lens, count, root, len, max, j, p);
    SpaceSuffices(lens, root, max, p, len, j, used, curr);
    used' := used + Pow2(curr);
    low := Low(huff, root);
    over := kind.LENS? && used' >= ENOUGH - MAXD;
    if !over {
      var e := Code(curr, root, next);
      ghost var t := tab[t0..];
      Linked(kind, lens, t, root, max, cur, len, j, used, curr, low, e);
      tab[t0 + low] := e;
      assert tab[t0..] == t[low := e];
    }
  }

  // ---- The end of the loop -----------------------------------------------------------

  lemma {:induction false} CompleteAtMax(lens: Lens, max: nat)
    requires max <= MAXBITS && forall l :: max < l <= MAXBITS ==> Count(lens, l) == 0
    ensures Complete(lens) <==> End(lens, max) == Pow2(max)
  {
    hide Kraft, NextCode, Count;
    KraftIsEnd(lens);
    ShlPow2(max, MAXBITS - max);
    if max < MAXBITS {
      SkipLengths(lens, max, MAXBITS);
      ShlMono(End(lens, max), Pow2(max), MAXBITS - max);
      ShlMono(Pow2(max), End(lens, max), MAXBITS - max);
    }
  }

  /** What the table holds does not reach beyond the space used. */
  lemma {:induction false} Truncate(kind: Kind, lens: Lens, t: seq<Code>, root: nat, s: nat, used: nat)
    requires |lens| <= Limit(kind) && Fits(lens) && Uses(lens, s) && Holds(kind, lens, t, root, s)
    requires Pow2(root) <= used <= |t| && (lens[s] > root ==> SubBelow(lens, t, root, s, used))
    ensures Holds(kind, lens, t[..used], root, s)
  {
    if lens[s] <= root {
      SubTruncate(t, used, 0, root, lens[s], Huff(lens, s), Entry(kind, s, lens[s]));
    } else {
      PrefixIsLow(lens, s, root);
      var e := t[Low(Huff(lens, s), root)];
      SubTruncate(t, used, e.val, e.op, lens[s] - root, Shr(Huff(lens, s), root), Entry(kind, s, lens[s] - root));
    }
  }

  lemma {:induction false} SubTruncate(t: seq<Code>, used: nat, next: nat, curr: nat, n: nat, h: nat, e: Code)
    requires next + Pow2(curr) <= used <= |t| && SubHolds(t, next, curr, n, h, e)
    ensures SubHolds(t[..used], next, curr, n, h, e)
  {
    forall i | 0 <= i < Pow2(curr) && Low(i, n) == h ensures t[..used][next + i] == e {
      assert t[next + i] == e;
    }
  }

  /** After the last symbol, every symbol is held within the space used. */
  lemma {:induction false} AllHeld(kind: Kind, lens: Lens, t: seq<Code>, t': seq<Code>, root: nat, min: nat, max: nat,
                cur: nat, len: nat, j: nat,
                next: nat, curr: nat, drop: nat, used: nat, low: nat, m: nat, j0: nat)
    requires |lens| <= Limit(kind) && Fits(lens) && Bounds(lens, min, max) && 1 <= root && |t| == |t'|
    requires Loop(kind, lens, t, root, max, cur, len, j, next, curr, drop, used, low, m, j0)
    requires len == max && j + 1 == Count(lens, max)
    requires AfterStore(kind, lens, t', root, cur, len, j, next, curr, drop, low)
    ensures Pow2(root) <= used <= |t'|
    ensures forall s: nat :: Uses(lens, s) ==> Holds(kind, lens, t'[..used], root, s)
    ensures forall i: nat :: Pow2(root) <= i < used ==> Allocated(lens, t'[..used], root, i)
  {
    hide Taken, Allocated;
    forall s: nat | Uses(lens, s) ensures Done(lens, s, len, j + 1) { RankBound(lens, s); }
    if drop != 0 {
      PrefixIsLow(lens, cur, root);
      TakenMore(lens, t', root, cur, len, j, next, curr);
      AllAllocated(lens, t', root, len, j + 1, used);
    }
    forall s: nat | Uses(lens, s) ensures Holds(kind, lens, t'[..used], root, s) {
      RankBound(lens, s);
      assert Done(lens, s, len, j + 1);
      if lens[s] > root { LeaveOne(lens, t', root, s, cur, len, j, next, curr, used, low); }
      Truncate(kind, lens, t', root, s, used);
    }
  }

  lemma {:induction false} AllAllocated(lens: Lens, t: seq<Code>, root: nat, len: nat, j: nat, used: nat)
    requires Taken(lens, t, root, len, j, used) && Pow2(root) <= used <= |t|
    requires forall s: nat :: Uses(lens, s) ==> Done(lens, s, len, j)
    ensures forall i: nat :: Pow2(root) <= i < used ==> Allocated(lens, t[..used], root, i)
  {
    forall i: nat | Pow2(root) <= i < used ensures Allocated(lens, t[..used], root, i) {
      assert TakenAt(lens, t, root, len, j, i);
      var s: nat :| TakenBy(lens, t, root, len, j, s, i);
      Split(Huff(lens, s), root);
      assert AllocatedTo(lens, t[..used], root, s, i);
    }
  }

  /** Move from the symbol just stored to the next one, into a new sub-table when
      the root bits of the code have changed. */
  method NextSymbol(kind: Kind, lens: Lens, tab: array<Code>, t0: nat, root: nat, max: nat, count: array<nat>,
                    ghost t: seq<Code>, ghost cur: nat, len: nat, ghost j: nat,
                    ghost cur': nat, len': nat, ghost k: nat, huff: nat,
                    next: nat, curr: nat, drop: nat, used: nat, low: nat, ghost m: nat, ghost j0: nat)
    returns (over: bool, next': nat, curr': nat, drop': nat, used': nat, low': nat, ghost m': nat, ghost j0': nat)
    requires |lens| <= Limit(kind) && Fits(lens) && (Complete(lens) || max == 1) && 1 <= root <= max <= MAXBITS
    requires t0 + Space(lens, root, max) <= tab.Length == t0 + |t| && Space(lens, root, max) < 65536
    requires Loop(kind, lens, t, root, max, cur, len, j, next, curr, drop, used, low, m, j0)
    requires AfterStore(kind, lens, tab[t0..], root, cur, len, j, next, curr, drop, low)
    requires At(lens, cur', len', k) && len' <= max && Follows(lens, len, j, len', k) && huff == Huff(lens, cur')
    requires count.Length == MAXBITS + 1 && count[len'] + k == Count(lens, len')
    requires forall l :: len' < l <= MAXBITS ==> count[l] == Count(lens, l)
    modifies tab
    ensures over ==> kind.LENS? && Space(lens, root, max) >= ENOUGH - MAXD
    ensures !over ==>
      Loop(kind, lens, tab[t0..], root, max, cur', len', k, next', curr', drop', used', low', m', j0')
    ensures forall i :: 0 <= i < t0 ==> tab[i] == old(tab[i])
  {
    if len' > root && Low(huff, root) != low {
      LeaveTable(kind, lens, t, tab[t0..], root, max, cur, len, j, cur', len', k, next, curr, drop, used, low, m, j0);
      CarryBuilt(kind, lens, tab[t0..], root, len, j, len', k);
      drop' := root;
      next' := next + Pow2(curr);
      over, curr', used', low' := OpenSubTable(kind, lens, tab, t0, root, max, count, cur', len', k, huff, next', used);
      m', j0' := len', k;
    } else {
      StayInTable(kind, lens, t, tab[t0..], root, max, cur, len, j, cur', len', k, next, curr, drop, used, low, m, j0);
      over, next', curr', drop', used', low', m', j0' := false, next, curr, drop, used, low, m, j0;
    }
  }

  /** Loop keeps the space used within bounds. */
  lemma {:induction false} LoopSpace(kind: Kind, lens: Lens, t: seq<Code>, root: nat, max: nat, cur: nat, len: nat,
                                     j: nat,
                  next: nat, curr: nat, drop: nat, used: nat, low: nat, m: nat, j0: nat)
    requires |lens| <= Limit(kind) && Fits(lens) && (Complete(lens) || max == 1) && 1 <= root <= max <= MAXBITS
    requires Loop(kind, lens, t, root, max, cur, len, j, next, curr, drop, used, low, m, j0)
    ensures Pow2(root) <= used <= Space(lens, root, max)
    ensures Place(lens, cur) < |lens|
    ensures max == 1 ==> drop == 0
  {
    PlaceBound(lens, cur);
    if drop != 0 {
      PrefixIsLow(lens, cur, root);
      PrefixRoom(lens, root, Prefix(lens, cur, root), m, j0);
      Pow2Mono(curr, max - root);
    }
  }

  /** The incremented index is that of the next code, and zero after the last code
      of a complete set. */
  lemma {:induction false} NextIndex(lens: Lens, cur: nat, len: nat, j: nat)
    requires Fits(lens) && At(lens, cur, len, j)
    ensures Huff(lens, cur) < Pow2(len)
    ensures Inc(len, Huff(lens, cur))
         == if CodeOf(lens, cur) + 1 < Pow2(len) then Rev(len, CodeOf(lens, cur) + 1) else 0
  {
    CodeRange(lens, cur);
    IncRev(len, CodeOf(lens, cur));
    RevBound(len, CodeOf(lens, cur));
  }

  /** The counts of the codes still to come, from rank j of length len on. */
  ghost predicate Counts(lens: Lens, count: seq<nat>, len: nat, j: nat) {
    && |count| == MAXBITS + 1 && 1 <= len <= MAXBITS && count[len] + j == Count(lens, len)
    && (forall l :: len < l <= MAXBITS ==> count[l] == Count(lens, l))
  }

  /** The length of the code that follows, and the index of that code. */
  method FollowingCode(lens: Lens, count: array<nat>, work: array<nat>, ghost cur: nat, len: nat, ghost j: nat,
                       max: nat, sym: nat, huff: nat)
    returns (huff': nat, len': nat, last: bool, ghost cur': nat, ghost k: nat)
    requires Fits(lens) && At(lens, cur, len, j) && len <= max <= MAXBITS && Count(lens, max) > 0
    requires count != work && Counts(lens, count[..], len, j) && Sorted(lens, work[..])
    requires sym == Place(lens, cur) && huff == Huff(lens, cur)
    modifies count
    ensures last <==> len == max && j + 1 == Count(lens, max)
    ensures last ==> huff' == if End(lens, max) < Pow2(max) then Rev(max, End(lens, max)) else 0
    ensures !last ==>
      && At(lens, cur', len', k) && len' <= max && Follows(lens, len, j, len', k)
      && huff' == Huff(lens, cur') && Place(lens, cur') == sym + 1 && Counts(lens, count[..], len', k)
  {
    NextIndex(lens, cur, len, j);
    RankBound(lens, cur);
    huff' := Increment(huff, len);
    count[len] := count[len] - 1;
    len', cur', k := len, cur, j;
    last := count[len] == 0 && len == max;
    if !last {
      ghost var M;
      cur', M, k := NextInOrder(lens, work[..], cur, len, j, max);
      NextCur(lens, cur, len, j, cur', M, k);
      if count[len] == 0 { len' := lens[work[sym + 1]]; }
    }
  }

  /** Fill all symbols into the tables: the loop over the sorted symbols. */
  method FillTables(kind: Kind, lens: Lens, tab: array<Code>, t0: nat, root: nat, min: nat, max: nat,
                    count: array<nat>, work: array<nat>)
    returns (over: bool, used: nat, huff: nat, drop: nat, low: nat)
    requires |lens| <= Limit(kind) && Fits(lens) && Bounds(lens, min, max) && min <= root <= max
    requires Complete(lens) || max == 1
    requires count.Length == MAXBITS + 1 && count != work
    requires forall l :: 1 <= l <= MAXBITS ==> count[l] == Count(lens, l)
    requires Sorted(lens, work[..])
    requires t0 + Space(lens, root, max) <= tab.Length && Space(lens, root, max) < 65536
    modifies tab, count
    ensures over ==> kind.LENS? && Space(lens, root, max) >= ENOUGH - MAXD
    ensures !over ==>
      && Pow2(root) <= used <= Space(lens, root, max)
      && (forall s: nat :: Uses(lens, s) ==> Holds(kind, lens, tab[t0..][..used], root, s))
      && (forall i: nat :: Pow2(root) <= i < used ==> Allocated(lens, tab[t0..][..used], root, i))
      && huff == (if Complete(lens) then 0 else Rev(max, End(lens, max)))
      && (max == 1 ==> drop == 0)
    ensures forall i :: 0 <= i < t0 ==> tab[i] == old(tab[i])
  {
    hide Loop, Holds, Allocated, Rev, Huff, End;
    var len: nat := min;
    ghost var cur: nat, j: nat, m: nat, j0: nat := Select(lens, |lens|, min, 0), 0, 0, 0;
    var sym: nat, next: nat, curr: nat := 0, 0, root;
    huff, drop, low, used := 0, 0, NONE, Pow2(root);
    FirstCode(lens, min, cur);
    over := kind.LENS? && used >= ENOUGH - MAXD;
    if over { return; }
    LoopStarts(kind, lens, tab[t0..], root, min, max, cur);
    while true
      invariant At(lens, cur, len, j) && len <= max
      invariant Loop(kind, lens, tab[t0..], root, max, cur, len, j, next, curr, drop, used, low, m, j0)
      invariant sym == Place(lens, cur) && huff == Huff(lens, cur)
      invariant Counts(lens, count[..], len, j) && Sorted(lens, work[..])
      invariant forall i :: 0 <= i < t0 ==> tab[i] == old(tab[i])
      decreases |lens| - sym
    {
      ghost var t := tab[t0..];
      LoopSpace(kind, lens, t, root, max, cur, len, j, next, curr, drop, used, low, m, j0);
      StoreSymbol(kind, lens, tab, t0, root, max, work[sym], len, j, huff, next, curr, drop, used, low, m, j0);
      var len', last; ghost var cur', k;
      huff, len', last, cur', k := FollowingCode(lens, count, work, cur, len, j, max, sym, huff);
      if last {
        AllHeld(kind, lens, t, tab[t0..], root, min, max, cur, len, j, next, curr, drop, used, low, m, j0);
        CompleteAtMax(lens, max);
        EndFits(lens, max);
        return;
      }
      over, next, curr, drop, used, low, m, j0 := NextSymbol(kind, lens, tab, t0, root, max, count, t, cur, len, j,
                                                             cur', len', k, huff, next, curr, drop, used, low, m, j0);
      if over { return; }
      LoopAt(kind, lens, tab[t0..], root, max, cur', len', k, next, curr, drop, used, low, m, j0);
      sym, cur, len, j := sym + 1, cur', len', k;
    }
  }

  /** Before the first symbol nothing is stored. */
  lemma {:induction false} LoopStarts(kind: Kind, lens: Lens, t: seq<Code>, root: nat, min: nat, max: nat, cur: nat)
    requires |lens| <= Limit(kind) && Bounds(lens, min, max) && min <= root <= max && At(lens, cur, min, 0)
    requires Pow2(root) <= |t|
    ensures Loop(kind, lens, t, root, max, cur, min, 0, 0, root, 0, Pow2(root), NONE, 0, 0)
  {
    forall s: nat | Done(lens, s, min, 0) ensures false { RankBound(lens, s); }
  }

  lemma {:induction false} LoopAt(kind: Kind, lens: Lens, t: seq<Code>, root: nat, max: nat, cur: nat, len: nat, j: nat,
                                  next: nat, curr: nat, drop: nat, used: nat, low: nat, m: nat, j0: nat)
    requires |lens| <= Limit(kind)
    requires Loop(kind, lens, t, root, max, cur, len, j, next, curr, drop, used, low, m, j0)
    ensures At(lens, cur, len, j) && len <= max
  {}

  lemma {:induction false} FirstCode(lens: Lens, min: nat, cur: nat)
    requires 1 <= min <= MAXBITS && At(lens, cur, min, 0) && forall l :: 1 <= l < min ==> Count(lens, l) == 0
    ensures Place(lens, cur) == 0 && Huff(lens, cur) == 0
  {
    SkipLengths(lens, 0, min);
    ShlZero(min);
    RevZero(min);
  }

  lemma {:induction false} PlaceBound(lens: Lens, s: nat)
    requires Uses(lens, s)
    ensures Place(lens, s) < |lens|
  {
    RankBound(lens, s);
    OffsIsUsed(lens, lens[s]);
  }
}
