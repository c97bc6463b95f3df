/** second/bank.c: the table of memory banks, contiguous both in logical and in physical
    addresses, and the search for the logical address of a physical one. */
module Bank {
  import opened Bits

  const MAX_MEM_MAP_SIZE: nat := 26

  datatype Bank = Bank(phys: u32, logi: u32, size: u32)

  /** Addition of unsigned longs. */
  function Plus(a: u32, b: u32): u32 { (a + b) % 0x1_0000_0000 }

  // ---- What a table means -----------------------------------------------------------------

  /** Bank b maps logical address l to physical address p. */
  predicate Covers(b: Bank, l: int, p: int) {
    b.logi <= l < b.logi + b.size && p - b.phys == l - b.logi
  }

  predicate Covered(banks: seq<Bank>, l: int, p: int) {
    exists i :: 0 <= i < |banks| && Covers(banks[i], l, p)
  }

  /** Neither logical nor physical addresses in common. */
  predicate Apart(a: Bank, b: Bank) {
    && (a.logi + a.size <= b.logi || b.logi + b.size <= a.logi)
    && (a.phys + a.size <= b.phys || b.phys + b.size <= a.phys)
  }

  /** A range that is not empty and ends below the top of the address space. */
  predicate Proper(b: Bank) {
    b.size > 0 && b.logi + b.size < 0x1_0000_0000 && b.phys + b.size < 0x1_0000_0000
  }

  /** Proper banks that are apart. */
  predicate Disjoint(banks: seq<Bank>) {
    && (forall i :: 0 <= i < |banks| ==> Proper(banks[i]))
    && forall i, j :: 0 <= i < j < |banks| ==> Apart(banks[i], banks[j])
  }

  predicate ApartFrom(banks: seq<Bank>, r: Bank) {
    Proper(r) && forall i :: 0 <= i < |banks| ==> Apart(banks[i], r)
  }

  /** A range that is not empty, anywhere in the address space. */
  predicate InSpace(b: Bank) {
    b.size > 0 && b.logi + b.size <= 0x1_0000_0000 && b.phys + b.size <= 0x1_0000_0000
  }

  /** Banks anywhere in the address space that are apart, and a range apart from them. */
  predicate Placed(banks: seq<Bank>) {
    && (forall i :: 0 <= i < |banks| ==> InSpace(banks[i]))
    && forall i, j :: 0 <= i < j < |banks| ==> Apart(banks[i], banks[j])
  }

  predicate Beside(banks: seq<Bank>, r: Bank) {
    InSpace(r) && forall i :: 0 <= i < |banks| ==> Apart(banks[i], r)
  }

  function Total(banks: seq<Bank>): nat {
    if banks == [] then 0 else Total(banks[..|banks| - 1]) + banks[|banks| - 1].size
  }

  // ---- Adding a range -----------------------------------------------------------------------

  /** r begins where b ends. */
  predicate Follows(b: Bank, r: Bank) {
    Plus(b.phys, b.size) == r.phys && Plus(b.logi, b.size) == r.logi
  }

  /** The first bank from i on that r touches. */
  function FirstTouch(banks: seq<Bank>, i: nat, r: Bank): (k: nat)
    requires i <= |banks|
    ensures i <= k <= |banks|
    ensures k < |banks| ==> Follows(banks[k], r) || Follows(r, banks[k])
    ensures forall j :: i <= j < k ==> !Follows(banks[j], r) && !Follows(r, banks[j])
    decreases |banks| - i
  {
    if i == |banks| || Follows(banks[i], r) || Follows(r, banks[i]) then i else FirstTouch(banks, i + 1, r)
  }

  /** The first bank from j on that follows b. */
  function FirstNext(banks: seq<Bank>, j: nat, b: Bank): (k: nat)
    requires j <= |banks|
    ensures j <= k <= |banks|
    ensures k < |banks| ==> Follows(b, banks[k])
    ensures forall i :: j <= i < k ==> !Follows(b, banks[i])
    decreases |banks| - j
  {
    if j == |banks| || Follows(b, banks[j]) then j else FirstNext(banks, j + 1, b)
  }

  /** b with the range that follows it. */
  function Longer(b: Bank, r: Bank): Bank { b.(size := Plus(b.size, r.size)) }

  /** b with the range before it. */
  function Earlier(b: Bank, r: Bank): Bank { Bank(r.phys, r.logi, Plus(b.size, r.size)) }

  /** The last bank takes the place of bank j. */
  function Removed(banks: seq<Bank>, j: nat): (s: seq<Bank>)
    requires j < |banks|
    ensures |s| == |banks| - 1
  {
    banks[j := banks[|banks| - 1]][..|banks| - 1]
  }

  /** The table after bank_add_mem. */
  function Added(banks: seq<Bank>, r: Bank): (s: seq<Bank>) {
    var i := FirstTouch(banks, 0, r);
    if i == |banks| then
      if |banks| >= MAX_MEM_MAP_SIZE then banks else banks + [r]
    else if Follows(banks[i], r) then
      var s := banks[i := Longer(banks[i], r)];
      var j := FirstNext(s, 0, s[i]);
      if j == |s| then s else Removed(s[i := Longer(s[i], s[j])], j)
    else banks[i := Earlier(banks[i], r)]
  }

  /** The table has no place for r, and no bank that it touches. */
  predicate Full(banks: seq<Bank>, r: Bank) {
    |banks| >= MAX_MEM_MAP_SIZE && FirstTouch(banks, 0, r) == |banks|
  }

  /** r is taken to follow b, but an end of b, or the joint size, wraps to 0. */
  predicate Wraps(b: Bank, r: Bank) {
    && Follows(b, r)
    && (b.logi + b.size == 0x1_0000_0000 || b.phys + b.size == 0x1_0000_0000 || b.size + r.size == 0x1_0000_0000)
  }

  /** Adding r joins ranges of which one wraps: r and a bank, or that bank and the one
      that it is merged with. */
  predicate JoinWraps(banks: seq<Bank>, r: Bank) {
    var i := FirstTouch(banks, 0, r);
    i < |banks| &&
      if Follows(banks[i], r) then
        Wraps(banks[i], r) ||
        var s := banks[i := Longer(banks[i], r)];
        var j := FirstNext(s, 0, s[i]);
        j < |s| && Wraps(s[i], s[j])
      else Wraps(r, banks[i])
  }

  /** A table of fewer than 26 banks is never full, and one of 26 takes in only ranges that
      touch one of them. */
  lemma {:induction false} RoomFor26(banks: seq<Bank>, r: Bank)
    ensures |banks| < 26 ==> !Full(banks, r)
    ensures |banks| == 26 ==>
      (Full(banks, r) <==> forall i :: 0 <= i < 26 ==> !Follows(banks[i], r) && !Follows(r, banks[i]))
  {}

  // ---- Two ranges become one ------------------------------------------------------------------

  lemma {:induction false} PlusIs(a: u32, b: u32)
    requires a + b < 0x1_0000_0000
    ensures Plus(a, b) == a + b
  {}

  /** Joining b and the r that follows it: what it covers, and what it is apart from. */
  lemma {:induction false} Joining(b: Bank, r: Bank)
    requires InSpace(b) && InSpace(r) && Apart(b, r) && Follows(b, r) && !Wraps(b, r)
    ensures InSpace(Longer(b, r)) && Longer(b, r).size == b.size + r.size && Earlier(r, b) == Longer(b, r)
    ensures forall l: int, p: int :: Covers(Longer(b, r), l, p) <==> Covers(b, l, p) || Covers(r, l, p)
    ensures forall c :: InSpace(c) && Apart(b, c) && Apart(r, c) ==> Apart(Longer(b, r), c) && Apart(c, Longer(b, r))
  {
    PlusIs(b.phys, b.size);
    PlusIs(b.logi, b.size);
  }

  lemma {:induction false} ApartSym(a: Bank, b: Bank)
    ensures Apart(a, b) == Apart(b, a)
  {}

  lemma {:induction false} NotItself(b: Bank)
    requires InSpace(b)
    ensures !Follows(b, b)
  {}

  // ---- Replacing and removing ------------------------------------------------------------------

  /** Bank i replaced by its union with r. */
  lemma {:induction false} Replaced(banks: seq<Bank>, i: nat, m: Bank, r: Bank)
    requires Placed(banks) && i < |banks| && InSpace(m) && Beside(banks, r)
    requires forall c :: InSpace(c) && Apart(banks[i], c) && Apart(r, c) ==> Apart(m, c) && Apart(c, m)
    requires forall l: int, p: int :: Covers(m, l, p) <==> Covers(banks[i], l, p) || Covers(r, l, p)
    ensures var s := banks[i := m];
      Placed(s) && forall l: int, p: int :: Covered(s, l, p) <==> Covered(banks, l, p) || Covers(r, l, p)
  {
    var s := banks[i := m];
    forall j, k | 0 <= j < k < |s| ensures Apart(s[j], s[k]) {
      if j == i {
        ApartSym(banks[k], r);
      } else if k == i {
        ApartSym(banks[j], banks[i]);
        ApartSym(banks[j], r);
      }
    }
    forall l: int, p: int ensures Covered(s, l, p) <==> Covered(banks, l, p) || Covers(r, l, p) {
      if Covered(banks, l, p) {
        var k :| 0 <= k < |banks| && Covers(banks[k], l, p);
        assert Covers(s[k], l, p);
      }
      if Covers(r, l, p) { assert Covers(s[i], l, p); }
      if Covered(s, l, p) {
        var k :| 0 <= k < |s| && Covers(s[k], l, p);
        if k != i { assert Covers(banks[k], l, p); }
      }
    }
  }

  /** Bank j removed: the others stay, and what it covered is lost. */
  lemma {:induction false} Removing(banks: seq<Bank>, j: nat)
    requires Placed(banks) && j < |banks|
    ensures Placed(Removed(banks, j)) && Beside(Removed(banks, j), banks[j])
    ensures forall l: int, p: int ::
      Covered(banks, l, p) <==> Covered(Removed(banks, j), l, p) || Covers(banks[j], l, p)
  {
    var s, n := Removed(banks, j), |banks| - 1;
    forall i, k | 0 <= i < k < n ensures Apart(s[i], s[k]) {
      ApartSym(s[i], s[k]);
      if i == j { assert Apart(banks[k], banks[n]); }
      if k == j { assert Apart(banks[i], banks[n]); }
    }
    forall i | 0 <= i < n ensures Apart(s[i], banks[j]) {
      ApartSym(s[i], banks[j]);
      if i == j { assert s[i] == banks[n]; }
    }
    forall l: int, p: int ensures Covered(banks, l, p) <==> Covered(s, l, p) || Covers(banks[j], l, p) {
      if Covered(banks, l, p) && !Covers(banks[j], l, p) {
        var k :| 0 <= k < |banks| && Covers(banks[k], l, p);
        if k == n { assert Covers(s[j], l, p); } else { assert Covers(s[k], l, p); }
      }
      if Covered(s, l, p) {
        var k :| 0 <= k < |s| && Covers(s[k], l, p);
        if k == j { assert Covers(banks[n], l, p); } else { assert Covers(banks[k], l, p); }
      }
    }
  }

  lemma {:induction false} TotalUpdate(banks: seq<Bank>, i: nat, m: Bank)
    requires i < |banks|
    ensures Total(banks[i := m]) + banks[i].size == Total(banks) + m.size
    decreases |banks|
  {
    var n := |banks| - 1;
    if i < n {
      assert banks[i := m][..n] == banks[..n][i := m];
      TotalUpdate(banks[..n], i, m);
    } else {
      assert banks[i := m][..n] == banks[..n];
    }
  }

  lemma {:induction false} TotalRemoved(banks: seq<Bank>, j: nat)
    requires j < |banks|
    ensures Total(Removed(banks, j)) + banks[j].size == Total(banks)
  {
    TotalUpdate(banks, j, banks[|banks| - 1]);
  }

  /** The pairs covered by s are those of the banks and those of r. */
  ghost predicate Unites(banks: seq<Bank>, r: Bank, s: seq<Bank>) {
    forall l: int, p: int :: Covered(s, l, p) <==> Covered(banks, l, p) || Covers(r, l, p)
  }

  /** What holds after r is added. */
  ghost predicate Adds(banks: seq<Bank>, r: Bank, s: seq<Bank>) {
    Placed(s) && Total(s) == Total(banks) + r.size && Unites(banks, r, s)
  }

  lemma {:induction false} Appended(banks: seq<Bank>, r: Bank)
    requires Placed(banks) && Beside(banks, r)
    ensures Adds(banks, r, banks + [r])
  {
    var s := banks + [r];
    assert s[..|s| - 1] == banks;
    forall l: int, p: int ensures Covered(s, l, p) <==> Covered(banks, l, p) || Covers(r, l, p) {
      if Covered(banks, l, p) {
        var k :| 0 <= k < |banks| && Covers(banks[k], l, p);
        assert Covers(s[k], l, p);
      }
      if Covers(r, l, p) { assert Covers(s[|banks|], l, p); }
    }
  }

  /** r joins bank i, at its end or before it. */
  lemma {:induction false} Extended(banks: seq<Bank>, i: nat, r: Bank)
    requires Placed(banks) && Beside(banks, r) && i < |banks|
    ensures Follows(banks[i], r) && !Wraps(banks[i], r) ==> Adds(banks, r, banks[i := Longer(banks[i], r)])
    ensures Follows(r, banks[i]) && !Wraps(r, banks[i]) ==> Adds(banks, r, banks[i := Earlier(banks[i], r)])
  {
    hide Placed, Covered, Covers, Apart, Wraps;
    Member(banks, i);
    MemberBeside(banks, i, r);
    ApartSym(banks[i], r);
    if Follows(banks[i], r) && !Wraps(banks[i], r) {
      var m := Longer(banks[i], r);
      Joining(banks[i], r);
      Replaced(banks, i, m, r);
      TotalUpdate(banks, i, m);
    }
    if Follows(r, banks[i]) && !Wraps(r, banks[i]) {
      var m := Earlier(banks[i], r);
      Joining(r, banks[i]);
      Replaced(banks, i, m, r);
      TotalUpdate(banks, i, m);
    }
  }

  lemma {:induction false} Member(banks: seq<Bank>, i: nat)
    requires Placed(banks) && i < |banks|
    ensures InSpace(banks[i])
  {}

  lemma {:induction false} MemberBeside(banks: seq<Bank>, i: nat, r: Bank)
    requires Beside(banks, r) && i < |banks|
    ensures Apart(banks[i], r)
  {}

  lemma {:induction false} TwoMembers(banks: seq<Bank>, i: nat, j: nat)
    requires Placed(banks) && i < |banks| && j < |banks| && i != j
    ensures Apart(banks[i], banks[j])
  {
    ApartSym(banks[i], banks[j]);
  }

  /** Banks i and j, which follow each other, become one. */
  lemma {:induction false} Merged(s: seq<Bank>, i: nat, j: nat)
    requires Placed(s) && i < |s| && j < |s| && Follows(s[i], s[j]) && !Wraps(s[i], s[j])
    ensures var u := Removed(s[i := Longer(s[i], s[j])], j);
      Placed(u) && Total(u) == Total(s) && forall l: int, p: int :: Covered(u, l, p) <==> Covered(s, l, p)
  {
    hide Placed, Covered, Covers, Apart, Beside, Follows, Wraps, Longer;
    Member(s, i);
    Member(s, j);
    NotItself(s[i]);
    TwoMembers(s, i, j);
    var m, v, n := Longer(s[i], s[j]), Removed(s, j), |s| - 1;
    var k := if i == n then j else i;
    assert Removed(s[i := m], j) == v[k := m] && v[k] == s[i];
    Removing(s, j);
    Joining(s[i], s[j]);
    Replaced(v, k, m, s[j]);
    TotalRemoved(s, j);
    TotalUpdate(v, k, m);
  }

  /** Adding a range that is apart from all banks, when nothing wraps. */
  lemma {:induction false} Joins(banks: seq<Bank>, r: Bank)
    requires Placed(banks) && Beside(banks, r) && !Full(banks, r) && !JoinWraps(banks, r)
    ensures Adds(banks, r, Added(banks, r))
  {
    hide Placed, Covered, Covers, Beside, Follows, Wraps, Removed;
    var i := FirstTouch(banks, 0, r);
    if i == |banks| {
      Appended(banks, r);
    } else {
      Extended(banks, i, r);
      if Follows(banks[i], r) {
        var s := banks[i := Longer(banks[i], r)];
        var j := FirstNext(s, 0, s[i]);
        if j < |s| { Merged(s, i, j); }
      }
    }
  }

  // ---- Below the top of the address space ---------------------------------------------------------

  lemma {:induction false} ProperIsPlaced(banks: seq<Bank>, r: Bank)
    requires Disjoint(banks) && ApartFrom(banks, r)
    ensures Placed(banks) && Beside(banks, r)
  {}

  /** Of banks that are apart and cover no more than proper ones, each is proper. */
  lemma {:induction false} ProperAgain(banks: seq<Bank>, r: Bank, s: seq<Bank>)
    requires Disjoint(banks) && Proper(r) && Placed(s) && Unites(banks, r, s)
    ensures Disjoint(s)
  {
    forall k | 0 <= k < |s| ensures Proper(s[k]) {
      var b := s[k];
      var l, p := b.logi + b.size - 1, b.phys + b.size - 1;
      assert Covers(b, l, p);
      assert Covered(s, l, p);
    }
  }

  /** Proper ranges do not wrap. */
  lemma {:induction false} NoWrap(banks: seq<Bank>, r: Bank)
    requires Disjoint(banks) && ApartFrom(banks, r)
    ensures !JoinWraps(banks, r)
  {
    hide Follows, FirstTouch, FirstNext;
    var i := FirstTouch(banks, 0, r);
    if i < |banks| {
      assert Apart(banks[i], r);
      if Follows(banks[i], r) {
        var s := banks[i := Longer(banks[i], r)];
        var j := FirstNext(s, 0, s[i]);
        if j < |s| { NoWrapMerging(banks, i, r, j); }
      }
    }
  }

  lemma {:induction false} NoWrapMerging(banks: seq<Bank>, i: nat, r: Bank, j: nat)
    requires Disjoint(banks) && ApartFrom(banks, r) && i < |banks| && j < |banks| && Follows(banks[i], r)
    requires var s := banks[i := Longer(banks[i], r)]; Follows(s[i], s[j])
    ensures var s := banks[i := Longer(banks[i], r)]; !Wraps(s[i], s[j])
  {
    hide Covers, Covered;
    var s := banks[i := Longer(banks[i], r)];
    ProperIsPlaced(banks, r);
    Extended(banks, i, r);
    ProperAgain(banks, r, s);
    NotItself(s[i]);
    TwoMembers(s, i, j);
  }

  /** Adding a range that is apart from all banks: the pairs covered are the old ones and
      those of r, or the table is full and stays as it is. */
  lemma {:induction false} AddedAdds(banks: seq<Bank>, r: Bank)
    requires Disjoint(banks) && ApartFrom(banks, r)
    ensures if Full(banks, r) then Added(banks, r) == banks
            else Disjoint(Added(banks, r)) && Adds(banks, r, Added(banks, r))
  {
    hide Disjoint, Placed, Beside, JoinWraps, Unites, Follows, Removed;
    if !Full(banks, r) {
      assert Proper(r);
      ProperIsPlaced(banks, r);
      NoWrap(banks, r);
      Joins(banks, r);
      ProperAgain(banks, r, Added(banks, r));
    }
  }

  // ---- Anywhere in the address space ----------------------------------------------------------------

  /** Without the condition that no range ends at the top of the address space, a bank
      that ends there is taken for one that ends at 0, and what is added is not found. */
  lemma {:induction false} TopOfMemory()
    ensures var banks, r := [Bank(0xFFFF_F000, 0xFFFF_F000, 0x1000)], Bank(0, 0, 0x1000);
      Apart(banks[0], r) && |Added(banks, r)| == 1 && !Covered(Added(banks, r), 0, 0) && Covers(r, 0, 0)
  {}

  /** What bank k is when second is joined to first although that wraps. */
  predicate Rest(u: seq<Bank>, k: nat, first: Bank, second: Bank)
    requires k < |u|
  {
    || (Apart(u[k], first) && Apart(u[k], second))
    || (u[k].logi == first.logi && u[k].phys == first.phys &&
        (first.size + second.size == 0x1_0000_0000 ==> u[k].size == 0))
  }

  /** Something is lost then: the beginning of the second, or of both. */
  lemma {:induction false} Lost(first: Bank, second: Bank, u: seq<Bank>)
    requires InSpace(first) && InSpace(second) && Apart(first, second) && Wraps(first, second)
    requires forall k :: 0 <= k < |u| ==> Rest(u, k, first, second)
    ensures exists l: int, p: int :: (Covers(first, l, p) || Covers(second, l, p)) && !Covered(u, l, p)
  {
    var b := if first.size + second.size == 0x1_0000_0000 then first else second;
    assert Covers(b, b.logi, b.phys);
    assert !Covered(u, b.logi, b.phys) by {
      forall k | 0 <= k < |u| ensures !Covers(u[k], b.logi, b.phys) { assert Rest(u, k, first, second); }
    }
  }

  /** Where the banks are that remain. */
  lemma {:induction false} RemovedFrom(banks: seq<Bank>, j: nat, t: nat) returns (k: nat)
    requires j < |banks| && t < |banks| - 1
    ensures k < |banks| && k != j && Removed(banks, j)[t] == banks[k]
  {
    k := if t == j then |banks| - 1 else t;
  }

  /** r is joined to the end of bank i, which wraps. */
  lemma {:induction false} WrongLonger(banks: seq<Bank>, r: Bank)
    requires Placed(banks) && Beside(banks, r)
    requires var i := FirstTouch(banks, 0, r); i < |banks| && Follows(banks[i], r) && Wraps(banks[i], r)
    ensures !Unites(banks, r, Added(banks, r))
  {
    hide FirstTouch, FirstNext, Wraps, Covers, InSpace, Removed;
    var i := FirstTouch(banks, 0, r);
    var b := banks[i];
    var s, u := banks[i := Longer(b, r)], Added(banks, r);
    var j := FirstNext(s, 0, s[i]);
    forall t: nat | t < |u| ensures Rest(u, t, b, r) {
      if j == |s| {
        if t == i { StaysEmpty(b, r); } else { Others(banks, i, t, r); }
      } else {
        var x := s[i := Longer(s[i], s[j])];
        var k := RemovedFrom(x, j, t);
        if k == i { MergedStart(banks, i, j, r); } else { Others(banks, i, k, r); }
      }
    }
    Lost(b, r, u);
    LostIs(banks, i, r, u);
  }

  /** A bank of size 0 follows itself. */
  lemma {:induction false} StaysEmpty(b: Bank, r: Bank)
    requires !Follows(Longer(b, r), Longer(b, r))
    ensures b.size + r.size != 0x1_0000_0000
  {}

  lemma {:induction false} Others(banks: seq<Bank>, i: nat, k: nat, r: Bank)
    requires Placed(banks) && Beside(banks, r) && i < |banks| && k < |banks| && i != k
    ensures Apart(banks[k], banks[i]) && Apart(banks[k], r)
  {
    TwoMembers(banks, k, i);
  }

  /** No other bank begins where bank i does, as one of size 0 would be taken to. */
  lemma {:induction false} MergedStart(banks: seq<Bank>, i: nat, j: nat, r: Bank)
    requires Placed(banks) && i < |banks| && j < |banks| && i != j
    requires Follows(Longer(banks[i], r), banks[j])
    ensures banks[i].size + r.size != 0x1_0000_0000
  {
    TwoMembers(banks, i, j);
    Member(banks, i);
    Member(banks, j);
  }

  lemma {:induction false} LostIs(banks: seq<Bank>, i: nat, r: Bank, u: seq<Bank>)
    requires i < |banks|
    requires exists l: int, p: int :: (Covers(banks[i], l, p) || Covers(r, l, p)) && !Covered(u, l, p)
    ensures !Unites(banks, r, u)
  {}

  /** r is put before bank i, which wraps. */
  lemma {:induction false} WrongEarlier(banks: seq<Bank>, r: Bank)
    requires Placed(banks) && Beside(banks, r)
    requires var i := FirstTouch(banks, 0, r); i < |banks| && !Follows(banks[i], r) && Wraps(r, banks[i])
    ensures !Unites(banks, r, Added(banks, r))
  {
    hide FirstTouch, Wraps, Covers, InSpace, Apart;
    var i := FirstTouch(banks, 0, r);
    var b, u := banks[i], banks[i := Earlier(banks[i], r)];
    forall t: nat | t < |u| ensures Rest(u, t, r, b) {
      if t == i { SizeWraps(b, r); } else { Others(banks, i, t, r); }
    }
    ApartSym(b, r);
    Lost(r, b, u);
    LostIs(banks, i, r, u);
  }

  lemma {:induction false} SizeWraps(b: Bank, r: Bank)
    ensures b.size + r.size == 0x1_0000_0000 ==> Longer(b, r).size == 0 && Earlier(b, r).size == 0
  {}

  /** Banks i and j are merged, which wraps. */
  lemma {:induction false} WrongMerge(s: seq<Bank>, i: nat, j: nat)
    requires Placed(s) && i < |s| && j < |s| && Follows(s[i], s[j]) && Wraps(s[i], s[j])
    ensures exists l: int, p: int :: Covered(s, l, p) && !Covered(Removed(s[i := Longer(s[i], s[j])], j), l, p)
  {
    hide Wraps, Covers, InSpace, Apart, Removed;
    Member(s, i);
    Member(s, j);
    NotItself(s[i]);
    TwoMembers(s, i, j);
    var x := s[i := Longer(s[i], s[j])];
    var u := Removed(x, j);
    forall t: nat | t < |u| ensures Rest(u, t, s[i], s[j]) {
      var k := RemovedFrom(x, j, t);
      if k == i {
        SizeWraps(s[i], s[j]);
      } else {
        TwoMembers(s, k, i);
        TwoMembers(s, k, j);
      }
    }
    Lost(s[i], s[j], u);
    forall l: int, p: int | Covers(s[i], l, p) || Covers(s[j], l, p) ensures Covered(s, l, p) {}
  }

  /** A range of which nothing is covered cannot be left out. */
  lemma {:induction false} NotThere(banks: seq<Bank>, r: Bank)
    requires Beside(banks, r)
    ensures !Unites(banks, r, banks)
  {
    assert Covers(r, r.logi, r.phys);
    assert !Covered(banks, r.logi, r.phys);
  }

  /** For banks and a range anywhere in the address space, the range is added right exactly
      if the table has a place for it and nothing that is joined wraps. */
  lemma {:induction false} AddsRightIff(banks: seq<Bank>, r: Bank)
    requires Placed(banks) && Beside(banks, r)
    ensures Unites(banks, r, Added(banks, r)) <==> !Full(banks, r) && !JoinWraps(banks, r)
  {
    hide Placed, Beside, Covers, Covered, Follows, Wraps, Removed, FirstTouch, FirstNext;
    var i := FirstTouch(banks, 0, r);
    if Full(banks, r) {
      NotThere(banks, r);
    } else if !JoinWraps(banks, r) {
      Joins(banks, r);
    } else if !Follows(banks[i], r) {
      WrongEarlier(banks, r);
    } else if Wraps(banks[i], r) {
      WrongLonger(banks, r);
    } else {
      var s := banks[i := Longer(banks[i], r)];
      Extended(banks, i, r);
      WrongMerge(s, i, FirstNext(s, 0, s[i]));
    }
  }

  /** A range that finds its place raises the memory available by its size. */
  lemma {:induction false} AvailRises(banks: seq<Bank>, r: Bank)
    requires Disjoint(banks) && ApartFrom(banks, r) && !Full(banks, r)
    ensures Total(Added(banks, r)) == Total(banks) + r.size < 0x1_0000_0000
  {
    hide Disjoint, ApartFrom, Full, Added;
    AddedAdds(banks, r);
    TotalFits(Added(banks, r));
  }

  // ---- How much there is -----------------------------------------------------------------------

  function Range(lo: int, n: nat): set<int> { if n == 0 then {} else Range(lo, n - 1) + {lo + n - 1} }

  lemma {:induction false} RangeIs(lo: int, n: nat)
    ensures |Range(lo, n)| == n && forall x :: x in Range(lo, n) <==> lo <= x < lo + n
  {
    if n == 0 {
    } else {
      RangeIs(lo, n - 1);
    }
  }

  function Physical(banks: seq<Bank>): set<int> {
    if banks == [] then {} else Physical(banks[..|banks| - 1]) + Range(banks[|banks| - 1].phys, banks[|banks| - 1].size)
  }

  predicate Holds(banks: seq<Bank>, x: int) {
    exists i :: 0 <= i < |banks| && InBank(banks[i], x)
  }

  predicate InBank(b: Bank, x: int) { b.phys <= x < b.phys + b.size }

  lemma {:induction false} PhysicalIs(banks: seq<Bank>)
    ensures forall x :: x in Physical(banks) <==> Holds(banks, x)
  {
    if banks == [] {
    } else {
      var n := |banks| - 1;
      PhysicalIs(banks[..n]);
      RangeIs(banks[n].phys, banks[n].size);
      forall x ensures x in Physical(banks) <==> Holds(banks, x) {
        if Holds(banks[..n], x) {
          var i :| 0 <= i < n && InBank(banks[..n][i], x);
          assert InBank(banks[i], x);
        }
        if InBank(banks[n], x) { assert Holds(banks, x); }
        if Holds(banks, x) {
          var i :| 0 <= i <= n && InBank(banks[i], x);
          if i < n { assert InBank(banks[..n][i], x); }
        }
      }
    }
  }

  lemma {:induction false} PhysicalSize(banks: seq<Bank>)
    requires Disjoint(banks)
    ensures |Physical(banks)| == Total(banks)
  {
    if banks == [] {
    } else {
      var n := |banks| - 1;
      PhysicalSize(banks[..n]);
      PhysicalIs(banks[..n]);
      RangeIs(banks[n].phys, banks[n].size);
      forall x | Holds(banks[..n], x) ensures !InBank(banks[n], x) {
        var i :| 0 <= i < n && InBank(banks[..n][i], x);
        ApartAt(banks, i, n);
      }
      assert Physical(banks[..n]) !! Range(banks[n].phys, banks[n].size) by {
        forall x | x in Physical(banks[..n]) ensures x !in Range(banks[n].phys, banks[n].size) {
          assert Holds(banks[..n], x);
          assert !InBank(banks[n], x);
        }
      }
    }
  }

  lemma {:induction false} ApartAt(banks: seq<Bank>, i: nat, j: nat)
    requires Disjoint(banks) && i < |banks| && j < |banks| && i != j
    ensures Apart(banks[i], banks[j])
  {
    ApartSym(banks[i], banks[j]);
  }

  /** Banks that are apart do not add up to more than the address space. */
  lemma {:induction false} TotalFits(banks: seq<Bank>)
    requires Disjoint(banks)
    ensures Total(banks) < 0x1_0000_0000
  {
    TotalBelow(banks, 0xFFFF_FFFF);
  }

  lemma {:induction false} TotalBelow(banks: seq<Bank>, top: nat)
    requires Disjoint(banks) && forall i :: 0 <= i < |banks| ==> banks[i].phys + banks[i].size <= top
    ensures Total(banks) <= top
  {
    PhysicalSize(banks);
    PhysicalIs(banks);
    RangeIs(0, top);
    forall x | Holds(banks, x) ensures 0 <= x < top {
      var i :| 0 <= i < |banks| && InBank(banks[i], x);
    }
    forall x | x in Physical(banks) ensures x in Range(0, top) { assert Holds(banks, x); }
    Subset(Physical(banks), Range(0, top));
  }

  lemma {:induction false} Subset(a: set<int>, b: set<int>)
    requires a <= b
    ensures |a| <= |b|
  {
    var c := b - a;
    assert b == a + c && a * c == {};
  }

  lemma {:induction false} NoTotal()
    ensures Total([]) == 0
  {}

  lemma {:induction false} TotalMore(banks: seq<Bank>, i: nat)
    requires i < |banks|
    ensures Total(banks[..i + 1]) == Total(banks[..i]) + banks[i].size
  {
    assert banks[..i + 1][..i] == banks[..i];
  }

  lemma {:induction false} PlusTotal(t: nat, x: u32, y: u32)
    requires x == t % 0x1_0000_0000
    ensures Plus(x, y) == (t + y) % 0x1_0000_0000
  {}

  // ---- Scanning the pages -----------------------------------------------------------------------

  type Mmu = u32 -> Option<u32>

  /** A page begins at l, and is mapped. */
  ghost predicate MappedPage(mmu: Mmu, ps: nat, l: u32)
    requires ps > 0
  {
    mmu(l).Some? && PageStart(l, ps) == l
  }

  /** Different pages below top have different frames, below the top of memory. */
  ghost predicate Injective(mmu: Mmu, ps: nat, top: nat)
    requires ps > 0
  {
    && (forall l: u32 :: l < top && MappedPage(mmu, ps, l) ==> mmu(l).value + ps < 0x1_0000_0000)
    && forall l: u32, m: u32 :: l < m < top && MappedPage(mmu, ps, l) && MappedPage(mmu, ps, m) ==>
         mmu(l).value + ps <= mmu(m).value || mmu(m).value + ps <= mmu(l).value
  }

  /** The beginning of the page that l is in. */
  function PageStart(l: nat, ps: nat): (s: nat)
    requires ps > 0
    ensures s <= l
  {
    l - l % ps
  }

  lemma {:induction false} PageStartIs(l: nat, ps: nat, k: nat)
    requires ps > 0 && ps * k <= l < ps * k + ps
    ensures PageStart(l, ps) == ps * k
  {
    DivModUnique(l, ps, k, l - ps * k);
  }

  /** The loop over the pages that begin below top ends before an address wraps. */
  predicate Pages(ps: nat, top: nat) { ps > 0 && (top + ps - 1) / ps * ps < 0x1_0000_0000 }

  lemma {:induction false} PageFits(ps: nat, top: nat, k: nat)
    requires Pages(ps, top) && ps * k < top
    ensures ps * (k + 1) == ps * k + ps < 0x1_0000_0000 && ps > 0
  {
    var q := (top + ps - 1) / ps;
    assert ps * (k + 1) == ps * k + ps;
    QuotAtLeast(top + ps - 1, ps, k + 1);
    MulMono(k + 1, q, ps);
    assert q * ps == ps * q;
  }

  lemma {:induction false} PagesStep(ps: nat, top: nat)
    requires Pages(ps, top)
    ensures ps > 0
  {}

  lemma {:induction false} LastPage(ps: nat, top: nat, k: nat)
    requires Pages(ps, top) && ps * k < top + ps
    ensures ps * k < 0x1_0000_0000
  {
    var q := (top + ps - 1) / ps;
    QuotAtLeast(top + ps - 1, ps, k);
    MulMono(k, q, ps);
    assert q * ps == ps * q;
  }

  /** The table after the pages from page k on are added. */
  function Scan(banks: seq<Bank>, mmu: Mmu, ps: nat, k: nat, top: nat): seq<Bank>
    requires Pages(ps, top)
    decreases top - ps * k
  {
    var l := ps * k;
    if l >= top then banks
    else
      PageFits(ps, top, k);
      Scan(match mmu(l) case None => banks case Some(p) => Added(banks, Bank(p, l, ps)), mmu, ps, k + 1, top)
  }

  /** No page finds the table full. */
  predicate NeverFull(banks: seq<Bank>, mmu: Mmu, ps: nat, k: nat, top: nat)
    requires Pages(ps, top)
    decreases top - ps * k
  {
    var l := ps * k;
    l >= top ||
    (PageFits(ps, top, k);
     match mmu(l)
     case None => NeverFull(banks, mmu, ps, k + 1, top)
     case Some(p) => !Full(banks, Bank(p, l, ps)) && NeverFull(Added(banks, Bank(p, l, ps)), mmu, ps, k + 1, top))
  }

  /** Page translation: the page that l is in is below top, and mapped so that l is at p. */
  predicate Maps(mmu: Mmu, ps: nat, top: nat, l: int, p: int)
    requires ps > 0 && top <= 0x1_0000_0000
  {
    0 <= l && PageStart(l, ps) < top && mmu(PageStart(l, ps)).Some? &&
        p == mmu(PageStart(l, ps)).value + (l - PageStart(l, ps))
  }

  /** Just the translations of the pages before page k. */
  ghost predicate Scanned(banks: seq<Bank>, mmu: Mmu, ps: nat, k: nat)
    requires ps > 0
  {
    Disjoint(banks) && ps * k <= 0x1_0000_0000 &&
    forall l: int, p: int :: Covered(banks, l, p) <==> Maps(mmu, ps, ps * k, l, p)
  }

  /** The pages before page k + 1 are those before page k, and page k. */
  lemma {:induction false} MapsMore(mmu: Mmu, ps: nat, k: nat, l: int, p: int)
    requires ps > 0 && ps * k + ps < 0x1_0000_0000
    ensures ps * (k + 1) == ps * k + ps
    ensures Maps(mmu, ps, ps * (k + 1), l, p) <==>
            Maps(mmu, ps, ps * k, l, p) ||
            (ps * k <= l < ps * k + ps && mmu(ps * k).Some? && p == mmu(ps * k).value + (l - ps * k))
  {
    var t := ps * k;
    assert ps * (k + 1) == t + ps;
    if l >= 0 {
      PageStartBefore(l, ps, k);
      PageStartBefore(l, ps, k + 1);
      if t <= l < t + ps { PageStartIs(l, ps, k); }
    }
  }

  /** The page of l begins before page k exactly if l does. */
  lemma {:induction false} PageStartBefore(l: nat, ps: nat, k: nat)
    requires ps > 0
    ensures PageStart(l, ps) < ps * k <==> l < ps * k
  {
    if l >= ps * k {
      QuotAtLeast(l, ps, k);
      MulMono(k, l / ps, ps);
      assert l == ps * (l / ps) + l % ps;
    }
  }

  lemma {:induction false} QuotAtLeast(l: nat, ps: nat, k: nat)
    requires ps > 0 && ps * k <= l
    ensures k <= l / ps
  {
    var q := l / ps;
    assert l == ps * q + l % ps && ps * (q + 1) == ps * q + ps;
    if q < k { MulMono(q + 1, k, ps); }
  }

  /** Page k is apart from the banks that hold the pages before it. */
  lemma {:induction false} PageApart(banks: seq<Bank>, mmu: Mmu, ps: nat, k: nat, top: nat)
    requires Pages(ps, top) && ps * k < top && Injective(mmu, ps, top)
    requires Scanned(banks, mmu, ps, k) && mmu(ps * k).Some?
    ensures ApartFrom(banks, Bank(mmu(ps * k).value, ps * k, ps))
  {
    PageFits(ps, top, k);
    var l, r := ps * k, Bank(mmu(ps * k).value, ps * k, ps);
    PageStartIs(l, ps, k);
    assert MappedPage(mmu, ps, l);
    forall i: nat | i < |banks| ensures Apart(banks[i], r) {
      var b := banks[i];
      Member(banks, i);
      assert Covers(b, b.logi + b.size - 1, b.phys + b.size - 1);
      assert Covered(banks, b.logi + b.size - 1, b.phys + b.size - 1);
      assert Maps(mmu, ps, ps * k, b.logi + b.size - 1, b.phys + b.size - 1);
      PageStartBefore(b.logi + b.size - 1, ps, k);
      assert b.logi + b.size <= l;
      if !(b.phys + b.size <= r.phys || r.phys + ps <= b.phys) {
        var x := if b.phys < r.phys then r.phys else b.phys;
        SharedFrame(banks, mmu, ps, k, top, i, x);
      }
    }
  }

  /** No physical address is both in page k and in a bank that holds the pages before. */
  lemma {:induction false} SharedFrame(banks: seq<Bank>, mmu: Mmu, ps: nat, k: nat, top: nat, i: nat, x: int)
    requires Pages(ps, top) && ps * k < top && Injective(mmu, ps, top)
    requires Scanned(banks, mmu, ps, k) && mmu(ps * k).Some? && i < |banks|
    requires InBank(banks[i], x)
    ensures !(mmu(ps * k).value <= x < mmu(ps * k).value + ps)
  {
    hide Pages, Disjoint;
    PageFits(ps, top, k);
    var m := banks[i].logi + (x - banks[i].phys);
    assert Covers(banks[i], m, x);
    assert Maps(mmu, ps, ps * k, m, x);
    var s := PageStart(m, ps);
    PageStartIs(ps * k, ps, k);
    StartOfStart(m, ps);
  }

  lemma {:induction false} StartOfStart(l: nat, ps: nat)
    requires ps > 0
    ensures PageStart(PageStart(l, ps), ps) == PageStart(l, ps) && l - PageStart(l, ps) < ps
  {
    assert l == ps * (l / ps) + l % ps;
    PageStartIs(ps * (l / ps), ps, l / ps);
  }

  /** Pages scanned into a table that is never full: it maps just what the MMU maps. */
  lemma {:induction false} ScanMaps(banks: seq<Bank>, mmu: Mmu, ps: nat, k: nat, top: nat)
    requires Pages(ps, top) && Injective(mmu, ps, top) && ps * k < top + ps
    requires Scanned(banks, mmu, ps, k) && NeverFull(banks, mmu, ps, k, top)
    ensures Disjoint(Scan(banks, mmu, ps, k, top))
    ensures forall l: int, p: int ::
      Covered(Scan(banks, mmu, ps, k, top), l, p) <==> Maps(mmu, ps, ps * PagesTo(ps, k, top), l, p)
    decreases top - ps * k
  {
    hide Injective, Maps, Covered, Disjoint, Added, Full, Pages;
    if ps * k < top {
      PageFits(ps, top, k);
      PageMore(banks, mmu, ps, k, top);
      var next := match mmu(ps * k) case None => banks case Some(p) => Added(banks, Bank(p, ps * k, ps));
      ScanMaps(next, mmu, ps, k + 1, top);
    }
  }

  lemma {:induction false} NothingScanned(mmu: Mmu, ps: nat)
    requires ps > 0
    ensures Scanned([], mmu, ps, 0)
  {}

  /** The number of pages that begin below top. */
  function PagesTo(ps: nat, k: nat, top: nat): (n: nat)
    requires Pages(ps, top) && ps * k < top + ps
    ensures k <= n && top <= ps * n < top + ps && ps * n < 0x1_0000_0000
    decreases top - ps * k
  {
    if ps * k >= top then
      LastPage(ps, top, k);
      k
    else
      PageFits(ps, top, k);
      PagesTo(ps, k + 1, top)
  }

  lemma {:induction false} PageMore(banks: seq<Bank>, mmu: Mmu, ps: nat, k: nat, top: nat)
    requires Pages(ps, top) && ps * k < top && Injective(mmu, ps, top)
    requires Scanned(banks, mmu, ps, k) && (mmu(ps * k).Some? ==> !Full(banks, Bank(mmu(ps * k).value, ps * k, ps)))
    ensures ps * (k + 1) == ps * k + ps
    ensures Scanned(match mmu(ps * k) case None => banks case Some(p) => Added(banks, Bank(p, ps * k, ps)), mmu, ps,
            k + 1)
  {
    hide Injective, Maps, Covered, Disjoint, Added, Full, ApartFrom;
    PageFits(ps, top, k);
    var next := match mmu(ps * k) case None => banks case Some(p) => Added(banks, Bank(p, ps * k, ps));
    if mmu(ps * k).Some? {
      var r := Bank(mmu(ps * k).value, ps * k, ps);
      PageApart(banks, mmu, ps, k, top);
      AddedAdds(banks, r);
    }
    forall l: int, p: int ensures Covered(next, l, p) <==> Maps(mmu, ps, ps * (k + 1), l, p) {
      MapsMore(mmu, ps, k, l, p);
    }
  }

  // ---- The table ------------------------------------------------------------------------------

  class MemoryMap {
    const bank: array<Bank>
    var number: nat

    ghost predicate Valid()
      reads this, bank
    {
      bank.Length == MAX_MEM_MAP_SIZE && number <= MAX_MEM_MAP_SIZE && Disjoint(Banks())
    }

    ghost function Banks(): seq<Bank>
      reads this, bank
      requires number <= bank.Length
    {
      bank[..number]
    }

    constructor ()
      ensures Valid() && Banks() == [] && fresh(bank)
    {
      bank := new Bank[MAX_MEM_MAP_SIZE](_ => Bank(0, 0, 0));
      number := 0;
    }

    /** Can bank i take in another one? */
    method MergeNext(i: nat)
      requires bank.Length == MAX_MEM_MAP_SIZE && i < number <= MAX_MEM_MAP_SIZE
      modifies `number, bank
      ensures number <= MAX_MEM_MAP_SIZE
      ensures var s := old(Banks()); var j := FirstNext(s, 0, s[i]);
        Banks() == if j == |s| then s else Removed(s[i := Longer(s[i], s[j])], j)
    {
      ghost var s := Banks();
      var j := 0;
      while j < number
        invariant j <= number == |s| && Banks() == s && FirstNext(s, 0, s[i]) == FirstNext(s, j, s[i])
      {
        if Follows(bank[i], bank[j]) {
          bank[i] := Longer(bank[i], bank[j]);
          number := number - 1;
          bank[j] := bank[number];
          assert Banks() == Removed(s[i := Longer(s[i], s[j])], j);
          return;
        }
        j := j + 1;
      }
    }

    /** bank_add_mem() */
    method AddMem(logi: u32, phys: u32, size: u32)
      requires bank.Length == MAX_MEM_MAP_SIZE && number <= MAX_MEM_MAP_SIZE
      modifies `number, bank
      ensures number <= MAX_MEM_MAP_SIZE && Banks() == Added(old(Banks()), Bank(phys, logi, size))
    {
      hide Removed;
      ghost var s := Banks();
      var r, i := Bank(phys, logi, size), 0;
      while i < number
        invariant i <= number == |s| && Banks() == s && FirstTouch(s, 0, r) == FirstTouch(s, i, r)
      {
        if Follows(bank[i], r) {
          bank[i] := Longer(bank[i], r);
          assert Banks() == s[i := Longer(s[i], r)];
          MergeNext(i);
          return;
        } else if Follows(r, bank[i]) {
          bank[i] := Earlier(bank[i], r);
          assert Banks() == s[i := Earlier(s[i], r)];
          return;
        }
        i := i + 1;
      }
      if number >= MAX_MEM_MAP_SIZE { return; }
      bank[number] := r;
      number := number + 1;
      assert Banks() == s + [r];
    }

    /** The page loop of m68k_init_memory_map(), for an MMU that translates as mmu says. */
    method InitMemoryMap(mmu: Mmu, ps: nat, top: nat)
      requires bank.Length == MAX_MEM_MAP_SIZE && Pages(ps, top)
      modifies `number, bank
      ensures number <= MAX_MEM_MAP_SIZE && Banks() == Scan([], mmu, ps, 0, top)
      ensures Injective(mmu, ps, top) && NeverFull([], mmu, ps, 0, top) ==>
        Valid() && forall l: int, p: int :: Covered(Banks(), l, p) <==> Maps(mmu, ps, ps * PagesTo(ps, 0, top), l, p)
    {
      hide Injective, Maps, Covered, Disjoint, Added, Full, Pages;
      PagesStep(ps, top);
      if Injective(mmu, ps, top) && NeverFull([], mmu, ps, 0, top) {
        NothingScanned(mmu, ps);
        ScanMaps([], mmu, ps, 0, top);
      }
      number := 0;
      var logical: u32 := 0;
      ghost var k := 0;
      while logical < top
        invariant number <= MAX_MEM_MAP_SIZE && logical == ps * k
        invariant Scan(Banks(), mmu, ps, k, top) == Scan([], mmu, ps, 0, top)
        decreases top + ps - logical
      {
        PageFits(ps, top, k);
        match mmu(logical) {
          case None =>
          case Some(physical) => AddMem(logical, physical, ps);
        }
        logical := logical + ps;
        k := k + 1;
      }
    }

    /** bank_find_by_physical() */
    method FindByPhysical(physical: u32) returns (i: int)
      requires Valid()
      ensures i == -1 ==> forall l: int :: !Covered(Banks(), l, physical)
      ensures i != -1 ==> 0 <= i < number && bank[i].phys <= physical < bank[i].phys + bank[i].size
    {
      var k := 0;
      while k < number
        invariant k <= number
        invariant forall j :: 0 <= j < k ==> !(bank[j].phys <= physical < bank[j].phys + bank[j].size)
      {
        Member(Banks(), k);
        PlusIs(bank[k].phys, bank[k].size);
        if bank[k].phys <= physical && physical < Plus(bank[k].phys, bank[k].size) { return k; }
        k := k + 1;
      }
      i := -1;
    }

    /** physical2logical(): the one logical address that the table maps to physical. */
    method Physical2Logical(physical: u32) returns (ret: int, logical: int)
      requires Valid()
      ensures ret == 0 || ret == -1
      ensures ret == -1 ==> forall l: int :: !Covered(Banks(), l, physical)
      ensures ret == 0 ==> forall l: int :: Covered(Banks(), l, physical) <==> l == logical
    {
      logical := 0;
      var i := FindByPhysical(physical);
      if i == -1 { return -1, 0; }
      if bank[i].phys > bank[i].logi {
        logical := physical - (bank[i].phys - bank[i].logi);
      } else {
        logical := physical + (bank[i].logi - bank[i].phys);
      }
      ret := 0;
      OnlyOne(Banks(), i, logical, physical);
    }

    /** The two together: for an injective translation that fits the table, the logical
        address found for a physical one is the one that the MMU translates to it. */
    method InitAndTranslate(mmu: Mmu, ps: nat, top: nat, physical: u32) returns (ret: int, logical: int)
      requires bank.Length == MAX_MEM_MAP_SIZE && Pages(ps, top)
      requires Injective(mmu, ps, top) && NeverFull([], mmu, ps, 0, top)
      modifies `number, bank
      ensures ret == 0 || ret == -1
      ensures ret == -1 ==> forall l: int :: !Maps(mmu, ps, ps * PagesTo(ps, 0, top), l, physical)
      ensures ret == 0 ==> forall l: int :: Maps(mmu, ps, ps * PagesTo(ps, 0, top), l, physical) <==> l == logical
    {
      hide Injective, Maps, Covered, Disjoint, Pages, NeverFull, Scan;
      PagesStep(ps, top);
      InitMemoryMap(mmu, ps, top);
      ret, logical := Physical2Logical(physical);
      forall l: int ensures Covered(Banks(), l, physical) <==> Maps(mmu, ps, ps * PagesTo(ps, 0, top), l, physical) {}
    }

    /** bank_mem_avail(), on 32 bits */
    method MemAvail() returns (size: u32)
      requires bank.Length == MAX_MEM_MAP_SIZE && number <= MAX_MEM_MAP_SIZE
      ensures size == Total(Banks()) % 0x1_0000_0000 && (Valid() ==> size == Total(Banks()))
    {
      hide Plus, Disjoint, Total;
      if Disjoint(Banks()) { TotalFits(Banks()); }
      NoTotal();
      size := 0;
      var i := 0;
      while i < number
        invariant i <= number && size == Total(Banks()[..i]) % 0x1_0000_0000
      {
        TotalMore(Banks(), i);
        PlusTotal(Total(Banks()[..i]), size, bank[i].size);
        size := Plus(size, bank[i].size);
        i := i + 1;
      }
      assert Banks()[..i] == Banks();
    }
  }

  lemma {:induction false} OnlyOne(banks: seq<Bank>, i: nat, l: int, p: int)
    requires Disjoint(banks) && i < |banks| && Covers(banks[i], l, p)
    ensures forall m: int :: Covered(banks, m, p) <==> m == l
  {
    forall m: int ensures Covered(banks, m, p) <==> m == l {
      forall k: nat | k < |banks| && k != i ensures !Covers(banks[k], m, p) { ApartAt(banks, i, k); }
      assert Covers(banks[i], m, p) <==> m == l;
    }
  }
}
