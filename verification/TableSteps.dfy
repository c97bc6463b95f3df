/** What the table builder knows while it fills a table, and why each of its steps
    keeps it: pure lemmas about table contents, code positions and table space. */
module TableSteps {
  import opened Bits
  import opened Canonical
  import opened Tables

  // ---- Symbols in order ---------------------------------------------------------

  /** Symbol s comes before the symbol of rank j among those of length len. */
  ghost predicate Done(lens: Lens, s: nat, len: nat, j: nat) {
    Uses(lens, s) && (lens[s] < len || (lens[s] == len && CountTo(lens, s, len) < j))
  }

  /** cur is the symbol of rank j among those of length len. */
  ghost predicate At(lens: Lens, cur: nat, len: nat, j: nat) {
    Uses(lens, cur) && lens[cur] == len && CountTo(lens, cur, len) == j
  }

  ghost predicate NoCodesBetween(lens: Lens, L: nat, M: nat) {
    forall l :: L < l < M ==> Count(lens, l) == 0
  }

  lemma {:induction false} SkipLengths(lens: Lens, L: nat, M: nat)
    requires L < M && NoCodesBetween(lens, L, M)
    ensures NextCode(lens, M) == Shl(End(lens, L), M - L)
    ensures Offs(lens, M) == Offs(lens, L) + Count(lens, L)
  {
    if L + 1 < M {
      SkipLengths(lens, L, M - 1);
      assert Count(lens, M - 1) == 0;
    } else {
      assert Shl(End(lens, L), 1) == 2 * Shl(End(lens, L), 0);
    }
  }

  lemma {:induction false} NextLength(lens: Lens, L: nat, max: nat) returns (M: nat)
    requires L < max && Count(lens, max) > 0
    ensures L < M <= max && Count(lens, M) > 0 && NoCodesBetween(lens, L, M)
  {
    M := L + 1;
    while Count(lens, M) == 0
      invariant L < M <= max && NoCodesBetween(lens, L, M)
      decreases max - M
    {
      M := M + 1;
    }
  }

  lemma {:induction false} DoneNextRank(lens: Lens, cur: nat, len: nat, j: nat, s: nat)
    requires At(lens, cur, len, j)
    ensures Done(lens, s, len, j + 1) <==> Done(lens, s, len, j) || s == cur
  {
    if Uses(lens, s) && lens[s] == len && CountTo(lens, s, len) == j { RankUnique(lens, s, cur); }
  }

  lemma {:induction false} DoneNextLength(lens: Lens, L: nat, M: nat, s: nat)
    requires L < M && NoCodesBetween(lens, L, M)
    ensures Done(lens, s, M, 0) <==> Done(lens, s, L, Count(lens, L))
  {
    if Uses(lens, s) { RankBound(lens, s); }
  }

  // ---- Table contents -------------------------------------------------------------

  ghost predicate Built(kind: Kind, lens: Lens, t: seq<Code>, root: nat, len: nat, j: nat)
    requires |lens| <= Limit(kind)
  {
    forall s: nat :: Done(lens, s, len, j) ==> Holds(kind, lens, t, root, s)
  }

  /** The sub-tables of all long symbols done so far, but for those with prefix p,
      lie below lim. */
  ghost predicate SubsBelow(lens: Lens, t: seq<Code>, root: nat, len: nat, j: nat, p: int, lim: nat) {
    forall s: nat :: Done(lens, s, len, j) && lens[s] > root && Prefix(lens, s, root) != p
      ==> SubBelow(lens, t, root, s, lim)
  }

  ghost predicate SubBelow(lens: Lens, t: seq<Code>, root: nat, s: nat, lim: nat)
    requires s < |lens|
  {
    var i := Low(Huff(lens, s), root);
    i < |t| && Pow2(root) <= t[i].val && t[i].val + Pow2(t[i].op) <= lim
  }

  /** Every slot from the root table's end to lim is in the sub-table of a symbol done, and
      in no other. */
  ghost predicate Taken(lens: Lens, t: seq<Code>, root: nat, len: nat, j: nat, lim: nat) {
    forall i: nat :: Pow2(root) <= i < lim ==> TakenAt(lens, t, root, len, j, i)
  }

  ghost predicate TakenAt(lens: Lens, t: seq<Code>, root: nat, len: nat, j: nat, i: nat) {
    exists s: nat :: TakenBy(lens, t, root, len, j, s, i)
  }

  ghost predicate TakenBy(lens: Lens, t: seq<Code>, root: nat, len: nat, j: nat, s: nat, i: nat) {
    && Done(lens, s, len, j) && lens[s] > root && InTableOf(lens, t, root, s, i)
    && forall u: nat :: Done(lens, u, len, j) && lens[u] > root && InTableOf(lens, t, root, u, i) ==>
         Low(Huff(lens, u), root) == Low(Huff(lens, s), root)
  }

  predicate SameAt(t: seq<Code>, t': seq<Code>, i: nat) {
    i < |t| ==> i < |t'| && t'[i] == t[i]
  }

  /** The sub-table of a symbol begins at lim or behind it. */
  ghost predicate StartsBehind(lens: Lens, t: seq<Code>, root: nat, s: nat, lim: nat)
    requires s < |lens|
  {
    var i := Low(Huff(lens, s), root);
    i < |t| && lim <= t[i].val
  }

  /** Slots stay taken when more symbols are done, whose sub-tables lie behind, and no link
      changes. */
  lemma {:induction false} TakenKeeps(lens: Lens, t: seq<Code>, t': seq<Code>, root: nat, len: nat, j: nat, M: nat,
                                      k: nat, lim: nat)
    requires Taken(lens, t, root, len, j, lim)
    requires forall s: nat :: Done(lens, s, len, j) && lens[s] > root ==>
               Done(lens, s, M, k) && SameAt(t, t', Low(Huff(lens, s), root))
    requires forall s: nat :: Done(lens, s, M, k) && lens[s] > root ==>
               (Done(lens, s, len, j) && Low(Huff(lens, s), root) < |t|) || StartsBehind(lens, t', root, s, lim)
    ensures Taken(lens, t', root, M, k, lim)
  {
    forall i: nat | Pow2(root) <= i < lim ensures TakenAt(lens, t', root, M, k, i) {
      assert TakenAt(lens, t, root, len, j, i);
      var s: nat :| TakenBy(lens, t, root, len, j, s, i);
      forall u: nat | Done(lens, u, M, k) && lens[u] > root && InTableOf(lens, t', root, u, i)
        ensures Low(Huff(lens, u), root) == Low(Huff(lens, s), root) {
        assert InTableOf(lens, t, root, u, i);
      }
      assert TakenBy(lens, t', root, M, k, s, i);
    }
  }

  /** Storing into the current sub-table changes no link. */
  lemma {:induction false} TakenStored(lens: Lens, t: seq<Code>, t': seq<Code>, root: nat, cur: nat, len: nat, j: nat,
                                       next: nat, curr: nat, n: nat, h: nat, e: Code)
    requires At(lens, cur, len, j) && Pow2(root) <= next && Stored(t, t', next, curr, n, h, e)
    requires Taken(lens, t, root, len, j, next) && root < len
    requires LinkTo(t', Low(Huff(lens, cur), root), curr, root, next)
    ensures Taken(lens, t', root, len, j + 1, next)
  {
    hide Taken, SubHolds;
    forall s: nat | Done(lens, s, len, j) && lens[s] > root
      ensures Done(lens, s, len, j + 1) && SameAt(t, t', Low(Huff(lens, s), root))
    {
      DoneNextRank(lens, cur, len, j, s);
      Split(Huff(lens, s), root);
    }
    forall s: nat | Done(lens, s, len, j + 1) && lens[s] > root
      ensures (Done(lens, s, len, j) && Low(Huff(lens, s), root) < |t|) || StartsBehind(lens, t', root, s, next)
    {
      DoneNextRank(lens, cur, len, j, s);
      Split(Huff(lens, s), root);
    }
    TakenKeeps(lens, t, t', root, len, j, len, j + 1, next);
  }

  /** The current sub-table is behind those before it. */
  lemma {:induction false} TakenMore(lens: Lens, t: seq<Code>, root: nat, cur: nat, len: nat, j: nat, next: nat,
                                     curr: nat)
    requires Fits(lens) && At(lens, cur, len, j) && root < len
    requires LinkTo(t, Low(Huff(lens, cur), root), curr, root, next)
    requires Taken(lens, t, root, len, j + 1, next)
    requires SubsBelow(lens, t, root, len, j + 1, Prefix(lens, cur, root), next)
    ensures Taken(lens, t, root, len, j + 1, next + Pow2(curr))
  {
    hide Fits, Prefix, Huff;
    DoneNextRank(lens, cur, len, j, cur);
    PrefixIsLow(lens, cur, root);
    var k := j + 1;
    forall i: nat | Pow2(root) <= i < next + Pow2(curr) ensures TakenAt(lens, t, root, len, k, i) {
      if i >= next {
        forall u: nat | Done(lens, u, len, k) && lens[u] > root && InTableOf(lens, t, root, u, i)
          ensures Low(Huff(lens, u), root) == Low(Huff(lens, cur), root) {
          PrefixIsLow(lens, u, root);
          var below := SubBelow(lens, t, root, u, next);
        }
        assert TakenBy(lens, t, root, len, k, cur, i);
      }
    }
  }

  /** t' is t with entry e stored in the table of 2^curr entries at next wherever
      the low n index bits are h. */
  ghost predicate Stored(t: seq<Code>, t': seq<Code>, next: nat, curr: nat, n: nat, h: nat, e: Code) {
    && |t'| == |t| && next + Pow2(curr) <= |t|
    && (forall i :: 0 <= i < |t| && !(next <= i < next + Pow2(curr)) ==> t'[i] == t[i])
    && (forall i :: 0 <= i < Pow2(curr) && Low(i, n) != h ==> t'[next + i] == t[next + i])
    && SubHolds(t', next, curr, n, h, e)
  }

  ghost predicate LinkTo(t: seq<Code>, i: nat, curr: nat, root: nat, next: nat) {
    i < |t| && t[i].op == curr && t[i].bits == root && t[i].val == next
  }

  /** What is stored in one table leaves other tables alone ... */
  lemma {:induction false} SubElsewhere(t: seq<Code>, t': seq<Code>, next: nat, curr: nat, m: nat, g: nat, e: Code,
                     v: nat, c: nat, n: nat, h: nat, f: Code)
    requires Stored(t, t', next, curr, m, g, e)
    requires v + Pow2(c) <= next && SubHolds(t, v, c, n, h, f)
    ensures SubHolds(t', v, c, n, h, f)
  {
    forall i | 0 <= i < Pow2(c) && Low(i, n) == h ensures t'[v + i] == f {
      assert t[v + i] == f;
    }
  }

  /** ... and, in its own table, whatever index bits are no prefix of its own. */
  lemma {:induction false} SubSame(t: seq<Code>, t': seq<Code>, next: nat, curr: nat, m: nat, g: nat, e: Code,
                n: nat, h: nat, f: Code)
    requires Stored(t, t', next, curr, m, g, e) && SubHolds(t, next, curr, n, h, f)
    requires n <= m && Low(g, n) != h
    ensures SubHolds(t', next, curr, n, h, f)
  {
    forall i | 0 <= i < Pow2(curr) && Low(i, n) == h ensures t'[next + i] == f {
      assert t[next + i] == f;
      LowLow(i, n, m);
    }
  }

  /** Prefix and low bits say the same about a long code. */
  lemma {:induction false} PrefixIsLow(lens: Lens, s: nat, root: nat)
    requires Fits(lens) && Uses(lens, s) && root <= lens[s]
    ensures Low(Huff(lens, s), root) == Rev(root, Prefix(lens, s, root))
    ensures Prefix(lens, s, root) < Pow2(root)
    ensures Shr(Huff(lens, s), root) < Pow2(lens[s] - root)
    ensures Low(Huff(lens, s), root) < Pow2(root)
  {
    CodeRange(lens, s);
    RevParts(root, lens[s], CodeOf(lens, s));
    ShlPow2(root, lens[s] - root);
    ShrBound(CodeOf(lens, s), lens[s] - root, Pow2(root));
    RevBound(lens[s] - root, CodeOf(lens, s));
    Split(Huff(lens, s), root);
  }

  /** Agreement on the first root bits and on the rest is agreement. */
  lemma {:induction false} LowByParts(x: nat, y: nat, root: nat, n: nat)
    requires root <= n && y < Pow2(n)
    requires Low(x, root) == Low(y, root) && Low(Shr(x, root), n - root) == Shr(y, root)
    ensures Low(x, n) == y
  {
    LowLow(x, root, n);
    Split(Low(x, n), root);
    Split(y, root);
  }

  /** Two long codes with the same root bits differ within the sub-table. */
  lemma {:induction false} SubCodesDiffer(lens: Lens, root: nat, s: nat, cur: nat)
    requires Fits(lens) && Uses(lens, s) && Uses(lens, cur) && s != cur && root < lens[s] <= lens[cur]
    requires Prefix(lens, s, root) == Prefix(lens, cur, root)
    ensures Low(Shr(Huff(lens, cur), root), lens[s] - root) != Shr(Huff(lens, s), root)
  {
    PrefixIsLow(lens, s, root);
    PrefixIsLow(lens, cur, root);
    PrefixFree(lens, s, cur);
    RevBound(lens[s], CodeOf(lens, s));
    var h, g, n := Huff(lens, s), Huff(lens, cur), lens[s];
    if Low(Shr(g, root), n - root) == Shr(h, root) { LowByParts(g, h, root, n); }
  }

  /** Storing a long symbol in a sub-table keeps an earlier one of the same table. */
  lemma {:induction false} KeepLongSame(kind: Kind, lens: Lens, t: seq<Code>, t': seq<Code>, root: nat, s: nat,
                                        cur: nat, next: nat, curr: nat, e: Code)
    requires |lens| <= Limit(kind) && Fits(lens) && Uses(lens, s) && Uses(lens, cur) && s != cur
    requires root < lens[s] <= lens[cur] <= root + curr && Holds(kind, lens, t, root, s)
    requires Prefix(lens, s, root) == Prefix(lens, cur, root)
    requires Pow2(root) <= next
    requires Stored(t, t', next, curr, lens[cur] - root, Shr(Huff(lens, cur), root), e)
    requires LinkTo(t, Low(Huff(lens, s), root), curr, root, next)
    ensures Holds(kind, lens, t', root, s)
  {
    hide Fits, CodeOf;
    PrefixIsLow(lens, s, root);
    SubCodesDiffer(lens, root, s, cur);
    SubSame(t, t', next, curr, lens[cur] - root, Shr(Huff(lens, cur), root), e,
            lens[s] - root, Shr(Huff(lens, s), root), Entry(kind, s, lens[s] - root));
  }

  /** Storing in a sub-table keeps a long symbol whose sub-table lies below. */
  lemma {:induction false} KeepLongOther(kind: Kind, lens: Lens, t: seq<Code>, t': seq<Code>, root: nat, s: nat,
                      next: nat, curr: nat, n: nat, h: nat, e: Code)
    requires |lens| <= Limit(kind) && Fits(lens) && Uses(lens, s) && lens[s] > root && Holds(kind, lens, t, root, s)
    requires Pow2(root) <= next && Stored(t, t', next, curr, n, h, e)
    requires SubBelow(lens, t, root, s, next)
    ensures Holds(kind, lens, t', root, s) && SubBelow(lens, t', root, s, next)
  {
    PrefixIsLow(lens, s, root);
    var l := t[Low(Huff(lens, s), root)];
    SubElsewhere(t, t', next, curr, n, h, e, l.val, l.op,
                 lens[s] - root, Shr(Huff(lens, s), root), Entry(kind, s, lens[s] - root));
  }

  /** One more symbol, stored in the root table. */
  lemma {:induction false} AddShort(kind: Kind, lens: Lens, t: seq<Code>, t': seq<Code>, root: nat, cur: nat, len: nat,
                                    j: nat)
    requires |lens| <= Limit(kind) && Fits(lens) && At(lens, cur, len, j) && len <= root
    requires Built(kind, lens, t, root, len, j)
    requires Stored(t, t', 0, root, len, Huff(lens, cur), Entry(kind, cur, len))
    ensures Built(kind, lens, t', root, len, j + 1)
  {
    forall s: nat | Done(lens, s, len, j + 1) ensures Holds(kind, lens, t', root, s) {
      DoneNextRank(lens, cur, len, j, s);
      if s != cur {
        PrefixFree(lens, s, cur);
        SubSame(t, t', 0, root, len, Huff(lens, cur), Entry(kind, cur, len),
                lens[s], Huff(lens, s), Entry(kind, s, lens[s]));
      }
    }
  }

  /** One more symbol, stored in the current sub-table. */
  lemma {:induction false} AddLong(kind: Kind, lens: Lens, t: seq<Code>, t': seq<Code>, root: nat, cur: nat, len: nat,
                                   j: nat,
                next: nat, curr: nat)
    requires |lens| <= Limit(kind) && Fits(lens) && At(lens, cur, len, j)
    requires 0 < curr < 16 && root < len <= root + curr && Pow2(root) <= next
    requires Built(kind, lens, t, root, len, j)
    requires SubsBelow(lens, t, root, len, j, Prefix(lens, cur, root), next)
    requires Stored(t, t', next, curr, len - root, Shr(Huff(lens, cur), root), Entry(kind, cur, len - root))
    requires LinkTo(t, Low(Huff(lens, cur), root), curr, root, next)
    ensures Built(kind, lens, t', root, len, j + 1)
    ensures SubsBelow(lens, t', root, len, j + 1, Prefix(lens, cur, root), next)
    ensures LinkTo(t', Low(Huff(lens, cur), root), curr, root, next)
  {
    PrefixIsLow(lens, cur, root);
    forall s: nat | Done(lens, s, len, j + 1)
      ensures Holds(kind, lens, t', root, s)
      ensures lens[s] > root && Prefix(lens, s, root) != Prefix(lens, cur, root) ==> SubBelow(lens, t', root, s, next)
    {
      DoneNextRank(lens, cur, len, j, s);
      if s != cur { AddLongKeeps(kind, lens, t, t', root, cur, len, j, next, curr, s); }
    }
  }

  lemma {:induction false} AddLongKeeps(kind: Kind, lens: Lens, t: seq<Code>, t': seq<Code>, root: nat, cur: nat,
                                        len: nat, j: nat,
                     next: nat, curr: nat, s: nat)
    requires |lens| <= Limit(kind) && Fits(lens) && At(lens, cur, len, j)
    requires 0 < curr < 16 && root < len <= root + curr && Pow2(root) <= next
    requires Done(lens, s, len, j) && s != cur && Holds(kind, lens, t, root, s)
    requires lens[s] > root && Prefix(lens, s, root) != Prefix(lens, cur, root) ==> SubBelow(lens, t, root, s, next)
    requires Stored(t, t', next, curr, len - root, Shr(Huff(lens, cur), root), Entry(kind, cur, len - root))
    requires LinkTo(t, Low(Huff(lens, cur), root), curr, root, next)
    ensures Holds(kind, lens, t', root, s)
    ensures lens[s] > root && Prefix(lens, s, root) != Prefix(lens, cur, root) ==> SubBelow(lens, t', root, s, next)
  {
    var e, n, h := Entry(kind, cur, len - root), len - root, Shr(Huff(lens, cur), root);
    if lens[s] <= root {
      SubElsewhere(t, t', next, curr, n, h, e, 0, root, lens[s], Huff(lens, s), Entry(kind, s, lens[s]));
    } else if Prefix(lens, s, root) == Prefix(lens, cur, root) {
      PrefixIsLow(lens, s, root);
      PrefixIsLow(lens, cur, root);
      KeepLongSame(kind, lens, t, t', root, s, cur, next, curr, e);
    } else {
      KeepLongOther(kind, lens, t, t', root, s, next, curr, n, h, e);
    }
  }

  /** Pointing a fresh root entry at a new sub-table keeps everything. */
  lemma {:induction false} AddLink(kind: Kind, lens: Lens, t: seq<Code>, root: nat, cur: nat, len: nat, j: nat,
                                   e: Code, lim: nat)
    requires |lens| <= Limit(kind) && Fits(lens) && At(lens, cur, len, j) && root < len
    requires Pow2(root) <= |t| && lim <= |t|
    requires Built(kind, lens, t, root, len, j) && SubsBelow(lens, t, root, len, j, -1, lim)
    requires forall s: nat :: Done(lens, s, len, j) && lens[s] > root ==>
             Prefix(lens, s, root) != Prefix(lens, cur, root)
    ensures Low(Huff(lens, cur), root) < |t|
    ensures Built(kind, lens, t[Low(Huff(lens, cur), root) := e], root, len, j)
    ensures SubsBelow(lens, t[Low(Huff(lens, cur), root) := e], root, len, j, -1, lim)
  {
    PrefixIsLow(lens, cur, root);
    var low := Low(Huff(lens, cur), root);
    var t' := t[low := e];
    forall s: nat | Done(lens, s, len, j)
      ensures Holds(kind, lens, t', root, s)
      ensures lens[s] > root ==> SubBelow(lens, t', root, s, lim)
    {
      if lens[s] <= root {
        LinkKeepsShort(kind, lens, t, root, s, cur, e);
      } else {
        LinkKeepsLong(kind, lens, t, root, s, cur, e, lim);
      }
    }
  }

  lemma {:induction false} LinkKeepsShort(kind: Kind, lens: Lens, t: seq<Code>, root: nat, s: nat, cur: nat, e: Code)
    requires |lens| <= Limit(kind) && Fits(lens) && Uses(lens, s) && Uses(lens, cur)
    requires lens[s] <= root < lens[cur] && Holds(kind, lens, t, root, s)
    requires Low(Huff(lens, cur), root) < |t|
    ensures Holds(kind, lens, t[Low(Huff(lens, cur), root) := e], root, s)
  {
    var low, f := Low(Huff(lens, cur), root), Entry(kind, s, lens[s]);
    PrefixFree(lens, s, cur);
    LowLow(Huff(lens, cur), lens[s], root);
    forall i | 0 <= i < Pow2(root) && Low(i, lens[s]) == Huff(lens, s) ensures t[low := e][0 + i] == f {
      assert t[0 + i] == f;
    }
  }

  lemma {:induction false} LinkKeepsLong(kind: Kind, lens: Lens, t: seq<Code>, root: nat, s: nat, cur: nat, e: Code,
                                         lim: nat)
    requires |lens| <= Limit(kind) && Fits(lens) && Uses(lens, s) && Uses(lens, cur)
    requires root < lens[s] && root < lens[cur] && Holds(kind, lens, t, root, s)
    requires SubBelow(lens, t, root, s, lim) && lim <= |t|
    requires Prefix(lens, s, root) != Prefix(lens, cur, root)
    requires Low(Huff(lens, cur), root) < |t|
    ensures Holds(kind, lens, t[Low(Huff(lens, cur), root) := e], root, s)
    ensures SubBelow(lens, t[Low(Huff(lens, cur), root) := e], root, s, lim)
  {
    hide Low, Shr, Pow2, Huff, Prefix, Entry;
    var low, f := Low(Huff(lens, cur), root), Entry(kind, s, lens[s] - root);
    PrefixIsLow(lens, s, root);
    PrefixIsLow(lens, cur, root);
    RevInjective(root, Prefix(lens, s, root), Prefix(lens, cur, root));
    var l := t[Low(Huff(lens, s), root)];
    var n, h := lens[s] - root, Shr(Huff(lens, s), root);
    forall i | 0 <= i < Pow2(l.op) && Low(i, n) == h ensures t[low := e][l.val + i] == f
    {
      assert t[l.val + i] == f;
    }
  }

  // ---- The next code ----------------------------------------------------------------

  /** The backwards increment of an n-bit index: clear the leading ones, set the
      next bit; zero when there is none. */
  function Inc(n: nat, h: nat): nat {
    if n == 0 then 0
    else if Low(Shr(h, n - 1), 1) == 1 then Inc(n - 1, Low(h, n - 1))
    else Low(h, n - 1) + Pow2(n - 1)
  }

  /** It is the increment of the code that the index reverses. */
  lemma {:induction false} IncRev(n: nat, c: nat)
    requires c < Pow2(n)
    ensures Inc(n, Rev(n, c)) == if c + 1 < Pow2(n) then Rev(n, c + 1) else 0
  {
    if n == 0 {
    } else {
      var a := Rev(n - 1, c / 2);
      RevBound(n - 1, c / 2);
      ShlOne(n - 1);
      ShlZero(n - 1);
      Join(a, c % 2, n - 1);
      RevOne(c % 2);
      assert Low(c % 2, 1) == c % 2 + 2 * Low(0, 0);
      assert Rev(n, c) == a + Shl(c % 2, n - 1);
      IncRev(n - 1, c / 2);
      assert c % 2 == 1 ==> (c + 1) / 2 == c / 2 + 1;
      assert c % 2 == 0 ==> (c + 1) / 2 == c / 2;
    }
  }

  /** Rank k of length M directly follows rank j of length len. */
  ghost predicate Follows(lens: Lens, len: nat, j: nat, M: nat, k: nat) {
    (M == len && k == j + 1) || (len < M && k == 0 && j + 1 == Count(lens, len) && NoCodesBetween(lens, len, M))
  }

  lemma {:induction false} NextCode'(lens: Lens, cur: nat, len: nat, j: nat, cur': nat, M: nat, k: nat)
    requires At(lens, cur, len, j) && At(lens, cur', M, k) && Follows(lens, len, j, M, k)
    ensures CodeOf(lens, cur') == Shl(CodeOf(lens, cur) + 1, M - len)
  {
    if len < M { SkipLengths(lens, len, M); }
  }

  /** The code after that of cur: same length, or the next length in use. */
  lemma {:induction false} NextCur(lens: Lens, cur: nat, len: nat, j: nat, cur': nat, M: nat, k: nat)
    requires Fits(lens) && At(lens, cur, len, j) && At(lens, cur', M, k) && Follows(lens, len, j, M, k)
    ensures CodeOf(lens, cur) + 1 < Pow2(len)
    ensures Huff(lens, cur') == Rev(len, CodeOf(lens, cur) + 1)
  {
    hide Shl, Rev, Pow2, NextCode, Count, CodeOf, Fits;
    NextCode'(lens, cur, len, j, cur', M, k);
    CodeRange(lens, cur');
    var c := CodeOf(lens, cur) + 1;
    ShlPow2(len, M - len);
    ShlMono(Pow2(len), c, M - len);
    RevShift(len, M - len, c);
  }

  lemma {:induction false} PrefixOrder(lens: Lens, root: nat, s: nat, cur: nat, len: nat, j: nat)
    requires Done(lens, s, len, j) && At(lens, cur, len, j) && root < lens[s]
    ensures Prefix(lens, s, root) <= Prefix(lens, cur, root)
  {
    var L := lens[s];
    if L < len {
      PrefixAbove(lens, cur, L);
      CodeRange(lens, s);
      ShrShr(CodeOf(lens, cur), len - L, L - root);
      ShrMono(CodeOf(lens, s), Shr(CodeOf(lens, cur), len - L), L - root);
    } else {
      ShrMono(CodeOf(lens, s), CodeOf(lens, cur), L - root);
    }
  }

  /** A step stays within the root prefix or moves to the start of a later one. */
  lemma {:induction false} PrefixStep(lens: Lens, root: nat, cur: nat, len: nat, j: nat, cur': nat, M: nat, k: nat)
    requires At(lens, cur, len, j) && At(lens, cur', M, k) && Follows(lens, len, j, M, k) && root < M
    ensures root < len ==> Prefix(lens, cur, root) <= Prefix(lens, cur', root)
    ensures (root < len ==> Prefix(lens, cur, root) != Prefix(lens, cur', root)) ==>
              CodeOf(lens, cur') == Shl(Prefix(lens, cur', root), M - root)
  {
    NextCode'(lens, cur, len, j, cur', M, k);
    if len <= root {
      NewPrefix(CodeOf(lens, cur) + 1, root - len, M - root);
    } else {
      StepPrefix(CodeOf(lens, cur), len - root, M - len);
    }
  }

  lemma {:induction false} NewPrefix(c: nat, a: nat, b: nat)
    ensures Shl(c, a + b) == Shl(Shr(Shl(c, a + b), b), b)
  {
    ShlShl(c, a, b);
    Pow2Pos(b);
    Join(0, Shl(c, a), b);
  }

  lemma {:induction false} StepPrefix(c: nat, a: nat, b: nat)
    ensures Shr(c, a) <= Shr(Shl(c + 1, b), a + b)
    ensures Shr(c, a) != Shr(Shl(c + 1, b), a + b) ==>
              Shl(c + 1, b) == Shl(Shr(Shl(c + 1, b), a + b), a + b)
  {
    var p, q := Shr(c, a), Shr(c + 1, a);
    Pow2Pos(b);
    Join(0, c + 1, b);
    ShrShr(Shl(c + 1, b), b, a);
    assert Shr(Shl(c + 1, b), b + a) == q;
    ShrMono(c, c + 1, a);
    if p < q {
      ShrBound(c, a, q);
      ShrBound(c + 1, a, q);
      assert c + 1 == Shl(q, a);
      ShlShl(q, a, b);
    }
  }

  // ---- The size of a sub-table -------------------------------------------------------

  /** curr bits suffice for every code with root prefix p. */
  ghost predicate SizeEnough(lens: Lens, root: nat, p: nat, curr: nat, max: nat) {
    root + curr <= max && (root + curr < max ==> Shl(p + 1, curr) <= End(lens, root + curr))
  }

  /** The codes up to curr - 1 bits leave part of the prefix uncovered. */
  ghost predicate SizeTight(lens: Lens, root: nat, p: nat, curr: nat, len: nat) {
    root < len <= root + curr &&
    (len < root + curr ==> End(lens, root + curr - 1) < Shl(p + 1, curr - 1))
  }

  lemma {:induction false} SizeCovers(lens: Lens, root: nat, curr: nat, max: nat, s: nat)
    requires Uses(lens, s) && root < lens[s] <= max && SizeEnough(lens, root, Prefix(lens, s, root), curr, max)
    ensures lens[s] <= root + curr
  {
    var p, m := Prefix(lens, s, root), root + curr;
    if m < lens[s] {
      PrefixAbove(lens, s, m);
      ShrShr(CodeOf(lens, s), lens[s] - m, curr);
      ShrBound(Shr(CodeOf(lens, s), lens[s] - m), curr, p + 1);
      assert false;
    }
  }

  /** When the prefix is exhausted, the next code is at least as long as the
      sub-table is deep. */
  lemma {:induction false} SizeReached(lens: Lens, root: nat, p: nat, curr: nat, len: nat, cur: nat)
    requires SizeTight(lens, root, p, curr, len) && Uses(lens, cur) && len <= lens[cur]
    requires p < Prefix(lens, cur, root)
    ensures root + curr <= lens[cur]
  {
    hide Shl, Shr, Pow2, CodeOf;
    var M, m := lens[cur], root + curr - 1;
    if M <= m {
      CodeRange(lens, cur);
      ShrBound(CodeOf(lens, cur), M - root, p + 1);
      ShlMono(Shl(p + 1, M - root), End(lens, M), m - M);
      ShlShl(p + 1, M - root, m - M);
      if M < m { EndGrows(lens, M, m); }
      assert false;
    }
  }

  // ---- Table space --------------------------------------------------------------------

  /** The code at rank j0 of length m starts the part of the code space with root
      prefix p. */
  ghost predicate Opens(lens: Lens, root: nat, p: nat, m: nat, j0: nat) {
    root < m <= MAXBITS && j0 <= Count(lens, m) && NextCode(lens, m) + j0 == Shl(p, m - root)
  }

  /** A finished prefix took at least 2^(m-root) symbols. */
  lemma {:induction false} PrefixCost(lens: Lens, root: nat, p: nat, m: nat, j0: nat, M: nat, k: nat)
    requires Opens(lens, root, p, m, j0)
    requires m <= M <= MAXBITS && k <= Count(lens, M) && (m == M ==> j0 <= k)
    requires Shl(p + 1, M - root) <= NextCode(lens, M) + k
    ensures Offs(lens, m) + j0 + Pow2(m - root) <= Offs(lens, M) + k
  {
    Advance(lens, m, j0, M, k);
    var d := Offs(lens, M) + k - (Offs(lens, m) + j0);
    ShlMono(Shl(p + 1, M - root), NextCode(lens, M) + k, MAXBITS - M);
    ShlShl(p + 1, M - root, MAXBITS - M);
    ShlShl(p, m - root, MAXBITS - m);
    ShlAdd(p, 1, MAXBITS - root);
    ShlShl(1, m - root, MAXBITS - m);
    ShlOne(m - root);
    ShlMono(Pow2(m - root), d, MAXBITS - m);
  }

  /** Every prefix is finished in the end, so the symbols that remain when it is
      opened are at least 2^(m-root). */
  lemma {:induction false} PrefixRoom(lens: Lens, root: nat, p: nat, m: nat, j0: nat)
    requires Complete(lens) && Opens(lens, root, p, m, j0) && p < Pow2(root)
    ensures Offs(lens, m) + j0 + Pow2(m - root) <= |lens|
  {
    KraftIsEnd(lens);
    ShlMono(p + 1, Pow2(root), MAXBITS - root);
    ShlPow2(root, MAXBITS - root);
    PrefixCost(lens, root, p, m, j0, MAXBITS, Count(lens, MAXBITS));
    OffsIsUsed(lens, MAXBITS);
  }

  /** The table space that inflate_table can need. */
  ghost function Room(lens: Lens, bits: nat): nat {
    if AtMost(lens, bits) then Pow2(bits)
    else Max(Pow2(bits), |lens|) + |lens| + Pow2(MAXBITS - bits)
  }

  function Max(a: nat, b: nat): nat { if a < b then b else a }

  /** The tables of a dynamic block always fit: the literal/length table stays far
      below the limit that inflate_table checks, and both tables together below
      ENOUGH. */
  lemma {:induction false} TablesFit(ll: Lens, dl: Lens, cl: Lens)
    requires |ll| <= 288 && |dl| <= 32 && |cl| <= 19 && AtMost(cl, 7)
    ensures Room(ll, 9) <= 864 && Room(dl, 6) <= 608 && Room(cl, 7) == 128
  {
    Pow2Values();
  }
}
