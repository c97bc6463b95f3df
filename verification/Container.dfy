/** The list of extents that the installer makes of a file (libemile), and the search that
    the boot loader makes in it (libcontainer). */
module Container {
  import opened Bits

  /** struct emile_block */
  datatype Extent = Extent(offset: u32, count: u16)

  /** A run of file blocks in adjacent places. */
  datatype Run = Run(zone: nat, aggregate: nat)

  // ---- Runs ---------------------------------------------------------------------------------

  /** The runs of a file whose blocks are at places p. */
  function Runs(p: seq<nat>): (r: seq<Run>)
    requires p != []
    ensures r != [] && r[|r| - 1].aggregate >= 1
    ensures r[|r| - 1].zone + r[|r| - 1].aggregate == p[|p| - 1] + 1
  {
    if |p| == 1 then [Run(p[0], 1)]
    else
      var r := Runs(p[..|p| - 1]);
      var n, x := |r| - 1, p[|p| - 1];
      if x == p[|p| - 2] + 1 then r[n := r[n].(aggregate := r[n].aggregate + 1)] else r + [Run(x, 1)]
  }

  /** The places that runs stand for. */
  function Places(r: seq<Run>): seq<nat> {
    if r == [] then [] else Places(r[..|r| - 1]) + Place(r[|r| - 1].zone, r[|r| - 1].aggregate)
  }

  function Place(zone: nat, n: nat): (s: seq<nat>)
    ensures |s| == n
  {
    seq(n, i requires 0 <= i < n => zone + i)
  }

  lemma {:induction false} PlacesAppend(r: seq<Run>, x: Run)
    ensures Places(r + [x]) == Places(r) + Place(x.zone, x.aggregate)
  {
    assert (r + [x])[..|r|] == r;
  }

  lemma {:induction false} PlaceMore(zone: nat, n: nat)
    ensures Place(zone, n + 1) == Place(zone, n) + [zone + n]
  {}

  /** A run longer by one. */
  lemma {:induction false} PlacesLonger(r: seq<Run>, x: Run)
    ensures Places(r + [Run(x.zone, x.aggregate + 1)]) == Places(r + [x]) + [x.zone + x.aggregate]
  {
    hide Places, Place;
    PlacesAppend(r, x);
    PlacesAppend(r, Run(x.zone, x.aggregate + 1));
    PlaceMore(x.zone, x.aggregate);
  }

  /** A run of one block. */
  lemma {:induction false} PlacesNew(r: seq<Run>, x: nat)
    ensures Places(r + [Run(x, 1)]) == Places(r) + [x]
  {
    hide Places, Place;
    PlacesAppend(r, Run(x, 1));
    PlaceMore(x, 0);
    PlaceNone(x);
  }

  /** The runs are the file, block by block in order. */
  lemma {:induction false} RunsAreFile(p: seq<nat>)
    requires p != []
    ensures Places(Runs(p)) == p
  {
    hide Places;
    var m := |p| - 1;
    if m == 0 {
      PlacesNew([], p[0]);
      NoPlaces();
      assert [] + [Run(p[0], 1)] == Runs(p);
    } else {
      RunsAreFile(p[..m]);
      var r, x := Runs(p[..m]), p[m];
      var n := |r| - 1;
      assert r == r[..n] + [r[n]];
      if x == p[m - 1] + 1 {
        assert Runs(p) == r[..n] + [Run(r[n].zone, r[n].aggregate + 1)];
        PlacesLonger(r[..n], r[n]);
      } else {
        PlacesNew(r, x);
      }
    }
  }

  lemma {:induction false} NoPlaces()
    ensures Places([]) == []
  {}

  lemma {:induction false} PlaceNone(zone: nat)
    ensures Place(zone, 0) == []
  {}

  /** No two neighbours could be one run. */
  lemma {:induction false} NoneMergeable(p: seq<nat>, i: nat)
    requires p != [] && i + 1 < |Runs(p)|
    ensures Runs(p)[i].zone + Runs(p)[i].aggregate != Runs(p)[i + 1].zone
    decreases |p|
  {
    var m := |p| - 1;
    if m == 0 {
    } else {
      var r := Runs(p[..m]);
      if i + 1 < |r| { NoneMergeable(p[..m], i); }
    }
  }

  // ---- Extents ----------------------------------------------------------------------------------

  /** The sectors of n blocks from place zone on. */
  function Sectors(first: nat, spb: nat, zone: nat, n: nat): (s: seq<nat>)
    ensures |s| == n * spb
  {
    seq(n * spb, i requires 0 <= i < n * spb => first + zone * spb + i)
  }

  /** The sectors of the file, in order. */
  function FileSectors(first: nat, spb: nat, p: seq<nat>): seq<nat> {
    if p == [] then [] else FileSectors(first, spb, p[..|p| - 1]) + Sectors(first, spb, p[|p| - 1], 1)
  }

  /** The sectors that extents stand for. */
  function Expand(e: seq<Extent>): seq<nat> {
    if e == [] then [] else Expand(e[..|e| - 1]) + Place(e[|e| - 1].offset, e[|e| - 1].count)
  }

  /** ADD_BLOCK, in 32 and 16 bits */
  function Extended(first: nat, spb: nat, r: Run): Extent {
    Extent((first + r.zone * spb) % 0x1_0000_0000, (r.aggregate * spb) % 0x1_0000)
  }

  function Extents(first: nat, spb: nat, r: seq<Run>): (e: seq<Extent>)
    ensures |e| == |r|
  {
    seq(|r|, i requires 0 <= i < |r| => Extended(first, spb, r[i]))
  }

  /** The run fits into an extent. */
  predicate CountFits(spb: nat, r: Run) { r.aggregate * spb < 0x1_0000 }
  predicate OffsetFits(first: nat, spb: nat, r: Run) { first + r.zone * spb < 0x1_0000_0000 }

  lemma {:induction false} SectorsMore(first: nat, spb: nat, zone: nat, n: nat)
    ensures Sectors(first, spb, zone, n + 1) == Sectors(first, spb, zone, n) + Sectors(first, spb, zone + n, 1)
  {
    assert (n + 1) * spb == n * spb + spb && (zone + n) * spb == zone * spb + n * spb;
  }

  lemma {:induction false} SectorsOfPlace(first: nat, spb: nat, zone: nat, n: nat)
    ensures FileSectors(first, spb, Place(zone, n)) == Sectors(first, spb, zone, n)
    decreases n
  {
    if n == 0 {
    } else {
      assert Place(zone, n)[..n - 1] == Place(zone, n - 1);
      SectorsOfPlace(first, spb, zone, n - 1);
      SectorsMore(first, spb, zone, n - 1);
    }
  }

  lemma {:induction false} FileSectorsAppend(first: nat, spb: nat, p: seq<nat>, q: seq<nat>)
    ensures FileSectors(first, spb, p + q) == FileSectors(first, spb, p) + FileSectors(first, spb, q)
    decreases |q|
  {
    if q == [] {
      assert p + q == p;
    } else {
      var m := |q| - 1;
      assert (p + q)[..|p + q| - 1] == p + q[..m];
      FileSectorsAppend(first, spb, p, q[..m]);
    }
  }

  lemma {:induction false} FileSectorsSize(first: nat, spb: nat, p: seq<nat>)
    ensures |FileSectors(first, spb, p)| == |p| * spb
  {
    if p == [] {
    } else {
      FileSectorsSize(first, spb, p[..|p| - 1]);
      assert |p| * spb == (|p| - 1) * spb + spb;
    }
  }

  /** Runs that fit expand to the sectors of their places. */
  lemma {:induction false} ExpandIsSectors(first: nat, spb: nat, r: seq<Run>)
    requires forall i :: 0 <= i < |r| ==> CountFits(spb, r[i]) && OffsetFits(first, spb, r[i])
    ensures Expand(Extents(first, spb, r)) == FileSectors(first, spb, Places(r))
  {
    if r == [] {
    } else {
      var n := |r| - 1;
      var x := r[n];
      ExpandIsSectors(first, spb, r[..n]);
      assert Extents(first, spb, r)[..n] == Extents(first, spb, r[..n]);
      FileSectorsAppend(first, spb, Places(r[..n]), Place(x.zone, x.aggregate));
      SectorsOfPlace(first, spb, x.zone, x.aggregate);
      OneExtent(first, spb, x);
    }
  }

  lemma {:induction false} OneExtent(first: nat, spb: nat, x: Run)
    requires CountFits(spb, x) && OffsetFits(first, spb, x)
    ensures var e := Extended(first, spb, x); Place(e.offset, e.count) == Sectors(first, spb, x.zone, x.aggregate)
  {}

  /** Extents never stand for more sectors than the runs have, and for fewer when a count
      does not fit. */
  lemma {:induction false} ExpandShort(first: nat, spb: nat, r: seq<Run>)
    ensures |Expand(Extents(first, spb, r))| <= |Places(r)| * spb
    ensures |Expand(Extents(first, spb, r))| == |Places(r)| * spb ==> forall i :: 0 <= i < |r| ==> CountFits(spb, r[i])
  {
    hide Extended, CountFits;
    if r == [] {
    } else {
      var n := |r| - 1;
      ExpandShort(first, spb, r[..n]);
      assert Extents(first, spb, r)[..n] == Extents(first, spb, r[..n]);
      OneShort(first, spb, r[n]);
      Distribute(|Places(r[..n])|, r[n].aggregate, spb);
    }
  }

  lemma {:induction false} OneShort(first: nat, spb: nat, x: Run)
    ensures Extended(first, spb, x).count <= x.aggregate * spb
    ensures Extended(first, spb, x).count == x.aggregate * spb <==> CountFits(spb, x)
  {}

  lemma {:induction false} Distribute(a: nat, b: nat, c: nat)
    ensures (a + b) * c == a * c + b * c
  {}

  /** Runs whose counts fit expand to the sectors of their places only if their offsets fit. */
  lemma {:induction false} ExpandWrapped(first: nat, spb: nat, r: seq<Run>)
    requires spb > 0 && forall i :: 0 <= i < |r| ==> CountFits(spb, r[i]) && r[i].aggregate >= 1
    requires Expand(Extents(first, spb, r)) == FileSectors(first, spb, Places(r))
    ensures forall i :: 0 <= i < |r| ==> OffsetFits(first, spb, r[i])
  {
    hide Extended, CountFits, OffsetFits, Sectors, Place;
    if r == [] {
    } else {
      var n := |r| - 1;
      var x, e := r[n], Extended(first, spb, r[n]);
      var was, now := Expand(Extents(first, spb, r[..n])), FileSectors(first, spb, Places(r[..n]));
      assert Extents(first, spb, r)[..n] == Extents(first, spb, r[..n]);
      FileSectorsAppend(first, spb, Places(r[..n]), Place(x.zone, x.aggregate));
      SectorsOfPlace(first, spb, x.zone, x.aggregate);
      ExpandShort(first, spb, r[..n]);
      ExpandSize(first, spb, r[..n]);
      FileSectorsSize(first, spb, Places(r[..n]));
      var tail, sectors := Place(e.offset, e.count), Sectors(first, spb, x.zone, x.aggregate);
      assert was + tail == now + sectors && |was| == |now|;
      assert (was + tail)[..|was|] == was && (now + sectors)[..|now|] == now;
      assert (was + tail)[|was|..] == tail && (now + sectors)[|now|..] == sectors;
      ExpandWrapped(first, spb, r[..n]);
      OneWrapped(first, spb, x);
    }
  }

  lemma {:induction false} OneWrapped(first: nat, spb: nat, x: Run)
    requires spb > 0 && CountFits(spb, x) && x.aggregate >= 1
    requires var e := Extended(first, spb, x); Place(e.offset, e.count) == Sectors(first, spb, x.zone, x.aggregate)
    ensures OffsetFits(first, spb, x)
  {
    var e := Extended(first, spb, x);
    MulMono(1, x.aggregate, spb);
    assert Place(e.offset, e.count)[0] == e.offset;
  }

  lemma {:induction false} ExpandSize(first: nat, spb: nat, r: seq<Run>)
    requires forall i :: 0 <= i < |r| ==> CountFits(spb, r[i])
    ensures |Expand(Extents(first, spb, r))| == |Places(r)| * spb
  {
    hide Extended, CountFits;
    if r == [] {
    } else {
      var n := |r| - 1;
      ExpandSize(first, spb, r[..n]);
      assert Extents(first, spb, r)[..n] == Extents(first, spb, r[..n]);
      OneShort(first, spb, r[n]);
      Distribute(|Places(r[..n])|, r[n].aggregate, spb);
    }
  }

  lemma {:induction false} RunsNotEmpty(p: seq<nat>)
    requires p != []
    ensures forall i :: 0 <= i < |Runs(p)| ==> Runs(p)[i].aggregate >= 1
  {
    if |p| <= 1 {
    } else {
      RunsNotEmpty(p[..|p| - 1]);
    }
  }

  /** Blocks of no sectors have no extent to fill, whatever its offset. */
  lemma {:induction false} NoSectors(first: nat, r: seq<Run>)
    ensures Expand(Extents(first, 0, r)) == []
  {
    if r == [] {
    } else {
      var n := |r| - 1;
      NoSectors(first, r[..n]);
      assert Extents(first, 0, r)[..n] == Extents(first, 0, r[..n]);
    }
  }

  /** The extents stand for exactly the sectors of the file if and only if every count fits
      into 16 bits, and every offset into 32 (unless a block is smaller than a sector). */
  lemma {:induction false} ExtentsAreFile(first: nat, spb: nat, p: seq<nat>)
    requires p != []
    ensures Expand(Extents(first, spb, Runs(p))) == FileSectors(first, spb, p) <==>
            forall i :: 0 <= i < |Runs(p)| ==>
              CountFits(spb, Runs(p)[i]) && (spb == 0 || OffsetFits(first, spb, Runs(p)[i]))
  {
    hide Runs, Expand, Extents, FileSectors, CountFits, OffsetFits;
    RunsAreFile(p);
    RunsNotEmpty(p);
    FileSectorsSize(first, spb, p);
    ExpandShort(first, spb, Runs(p));
    if spb == 0 {
      NoSectors(first, Runs(p));
      forall i | 0 <= i < |Runs(p)| ensures CountFits(spb, Runs(p)[i]) { NoCount(Runs(p)[i]); }
    } else if Expand(Extents(first, spb, Runs(p))) == FileSectors(first, spb, p) {
      ExpandWrapped(first, spb, Runs(p));
    } else if forall i :: 0 <= i < |Runs(p)| ==> CountFits(spb, Runs(p)[i]) && OffsetFits(first, spb, Runs(p)[i]) {
      FittingExtents(first, spb, p);
    }
  }

  lemma {:induction false} NoCount(x: Run)
    ensures CountFits(0, x)
  {}

  lemma {:induction false} FittingExtents(first: nat, spb: nat, p: seq<nat>)
    requires p != []
    requires forall i :: 0 <= i < |Runs(p)| ==> CountFits(spb, Runs(p)[i]) && OffsetFits(first, spb, Runs(p)[i])
    ensures Expand(Extents(first, spb, Runs(p))) == FileSectors(first, spb, p)
  {
    RunsAreFile(p);
    ExpandIsSectors(first, spb, Runs(p));
  }

  /** Sector j of block k of the file. */
  lemma {:induction false} FileSectorAt(first: nat, spb: nat, p: seq<nat>, k: nat, j: nat)
    requires k < |p| && j < spb
    ensures k * spb + j < |FileSectors(first, spb, p)|
    ensures FileSectors(first, spb, p)[k * spb + j] == first + p[k] * spb + j
    decreases |p|
  {
    var m := |p| - 1;
    FileSectorsSize(first, spb, p);
    FileSectorsSize(first, spb, p[..m]);
    MulMono(k + 1, |p|, spb);
    assert spb * (k + 1) == k * spb + spb && spb * |p| == |p| * spb;
    if k >= m {
    } else {
      FileSectorAt(first, spb, p[..m], k, j);
    }
  }

  // ---- Creating the container --------------------------------------------------------------------

  /** What FIBMAP says about blocks 0 to n, up to the first that it refuses. */
  function Mapped(fibmap: nat -> Option<nat>, n: nat): (p: seq<nat>)
    requires n > 0 && fibmap(0).Some?
    ensures 1 <= |p| <= n && p[0] == fibmap(0).value
    ensures forall i :: 0 <= i < |p| ==> fibmap(i) == Some(p[i])
    ensures |p| < n ==> fibmap(|p|) == None
  {
    if n == 1 then [fibmap(0).value]
    else
      var p := Mapped(fibmap, n - 1);
      if |p| == n - 1 && fibmap(n - 1).Some? then p + [fibmap(n - 1).value] else p
  }

  /** The number of blocks of a file of that size; block 0 is looked up even of none. */
  function BlockCount(size: nat, blockSize: nat): nat
    requires blockSize > 0
  {
    var n := (size + blockSize - 1) / blockSize;
    if n == 0 then 1 else n
  }

  /** Block k is counted exactly if it holds a byte of the file, or is block 0. */
  lemma {:induction false} CountIsCeiling(size: nat, blockSize: nat, k: nat)
    requires blockSize > 0
    ensures k < BlockCount(size, blockSize) <==> k == 0 || blockSize * k < size
  {
    var m := size + blockSize - 1;
    var n := m / blockSize;
    assert m == blockSize * n + m % blockSize;
    if k < n {
      MulMono(k + 1, n, blockSize);
      assert blockSize * (k + 1) == blockSize * k + blockSize;
    } else {
      MulMono(n, k, blockSize);
    }
  }

  /** ADD_BLOCK: the entry is written before the check, so that there has to be a place
      for it behind the last. */
  method AddBlock(blocks: array<Extent>, current: nat, maxblocks: nat, e: Extent) returns (ok: bool)
    requires current <= maxblocks < blocks.Length
    modifies blocks
    ensures ok <==> current + 1 <= maxblocks
    ensures blocks[..current + 1] == old(blocks[..current]) + [e]
  {
    blocks[current] := e;
    ok := current + 1 <= maxblocks;
  }

  /** emile_scsi_create_container(): the extents of the runs and an end mark, if they fit. */
  method CreateContainer(fibmap: nat -> Option<nat>, size: nat, blockSize: nat, sectorSize: nat, first: nat,
                         blocks: array<Extent>, maxblocks: nat) returns (ret: int)
    requires blockSize > 0 && sectorSize > 0 && maxblocks < blocks.Length
    modifies blocks
    ensures ret == 0 || ret == -1
    ensures fibmap(0) == None ==> ret == -1
    ensures fibmap(0).Some? ==>
      var e := Extents(first, blockSize / sectorSize, Runs(Mapped(fibmap, BlockCount(size, blockSize))));
      && (ret == 0 <==> |e| + 1 <= maxblocks)
      && (ret == 0 ==> blocks[..|e| + 1] == e + [Extent(0, 0)])
  {
    hide Mapped, Runs, Extended;
    if fibmap(0) == None { return -1; }
    var spb, n := blockSize / sectorSize, BlockCount(size, blockSize);
    var zone, aggregate, lastPhysical, current := fibmap(0).value, 1, fibmap(0).value, 0;
    var logical := 1;
    ghost var p := Mapped(fibmap, n);
    ghost var r := [];
    FirstRun(p);
    while logical < n && fibmap(logical).Some?
      invariant 1 <= logical <= |p| && lastPhysical == p[logical - 1] && current == |r| <= maxblocks
      invariant Runs(p[..logical]) == r + [Run(zone, aggregate)]
      invariant blocks[..current] == Extents(first, spb, r) && |r| + 1 <= |Runs(p)|
      decreases n - logical
    {
      var physical := fibmap(logical).value;
      NextRun(p, logical, r, Run(zone, aggregate));
      if physical == lastPhysical + 1 {
        aggregate := aggregate + 1;
      } else {
        var e := Extended(first, spb, Run(zone, aggregate));
        var ok := AddBlock(blocks, current, maxblocks, e);
        ExtentsMore(first, spb, r, Run(zone, aggregate));
        RunsGrow(p, logical + 1);
        if !ok { return -1; }
        r := r + [Run(zone, aggregate)];
        current := current + 1;
        zone, aggregate := physical, 1;
      }
      lastPhysical := physical;
      logical := logical + 1;
    }
    assert p[..logical] == p;
    ExtentsMore(first, spb, r, Run(zone, aggregate));
    var ok := AddBlock(blocks, current, maxblocks, Extended(first, spb, Run(zone, aggregate)));
    if !ok { return -1; }
    ok := AddBlock(blocks, current + 1, maxblocks, Extent(0, 0));
    ret := if ok then 0 else -1;
  }

  lemma {:induction false} FirstRun(p: seq<nat>)
    requires p != []
    ensures Runs(p[..1]) == [Run(p[0], 1)] && 1 <= |Runs(p)|
  {}

  /** One block more: it lengthens the last run or begins a new one. */
  lemma {:induction false} NextRun(p: seq<nat>, i: nat, r: seq<Run>, x: Run)
    requires 1 <= i < |p| && Runs(p[..i]) == r + [x]
    ensures Runs(p[..i + 1]) == if p[i] == p[i - 1] + 1 then r + [Run(x.zone, x.aggregate + 1)]
            else r + [x] + [Run(p[i], 1)]
  {
    assert p[..i + 1][..i] == p[..i];
  }

  lemma {:induction false} RunsGrow(p: seq<nat>, i: nat)
    requires 1 <= i <= |p|
    ensures |Runs(p[..i])| <= |Runs(p)|
    decreases |p| - i
  {
    if i < |p| {
      var r := Runs(p[..i]);
      NextRun(p, i, r[..|r| - 1], r[|r| - 1]);
      RunsGrow(p, i + 1);
    } else {
      assert p[..i] == p;
    }
  }

  lemma {:induction false} ExtentsMore(first: nat, spb: nat, r: seq<Run>, x: Run)
    ensures Extents(first, spb, r + [x]) == Extents(first, spb, r) + [Extended(first, spb, x)]
  {
    hide Extended;
  }

  // ---- Finding a sector ------------------------------------------------------------------------------

  lemma {:induction false} ExpandMore(e: seq<Extent>, i: nat)
    requires i < |e|
    ensures Expand(e[..i + 1]) == Expand(e[..i]) + Place(e[i].offset, e[i].count)
  {
    assert e[..i + 1][..i] == e[..i];
  }

  lemma {:induction false} ExpandPrefix(e: seq<Extent>, i: nat)
    requires i <= |e|
    ensures Expand(e[..i]) <= Expand(e)
    decreases |e| - i
  {
    if i < |e| {
      ExpandPrefix(e, i + 1);
      ExpandMore(e, i);
    } else {
      assert e[..i] == e;
    }
  }

  /** seek_block(): the sector that holds byte offset of what the extents stand for, or 0
      behind their end. */
  method SeekBlock(blocks: array<Extent>, ghost e: seq<Extent>, offset: nat, blockSize: nat) returns (sector: nat)
    requires blockSize > 0 && |e| < blocks.Length && blocks[..|e|] == e && blocks[|e|].offset == 0
    requires forall i :: 0 <= i < |e| ==> e[i].offset != 0
    ensures sector == if offset / blockSize < |Expand(e)| then Expand(e)[offset / blockSize] else 0
  {
    hide Expand;
    var i, current: nat := 0, 0;
    NothingExpanded(e);
    while blocks[i].offset != 0
      invariant i <= |e| && current == blockSize * |Expand(e[..i])| && current <= offset
      decreases |e| - i
    {
      assert e[i] == blocks[i];
      var extentSize := blockSize * blocks[i].count;
      ExpandMore(e, i);
      ExpandPrefix(e, i + 1);
      assert blockSize * (|Expand(e[..i])| + e[i].count) == current + extentSize;
      if current <= offset && offset < current + extentSize {
        Inside(offset, current, blockSize, |Expand(e[..i])|, e[i].count);
        return blocks[i].offset + (offset - current) / blockSize;
      }
      current := current + extentSize;
      i := i + 1;
    }
    assert e[..i] == e;
    AtLeast(offset, blockSize, |Expand(e)|);
    sector := 0;
  }

  lemma {:induction false} NothingExpanded(e: seq<Extent>)
    ensures Expand(e[..0]) == []
  {}

  lemma {:induction false} Inside(offset: nat, current: nat, bs: nat, k: nat, n: nat)
    requires bs > 0 && current == bs * k <= offset < current + bs * n
    ensures k <= offset / bs < k + n && (offset - current) / bs == offset / bs - k
  {
    var q, r := Divided(offset - current, bs);
    assert bs * (k + q) == bs * k + bs * q;
    DivModUnique(offset - current, bs, q, r);
    DivModUnique(offset, bs, k + q, r);
    Below(q, n, bs);
  }

  lemma {:induction false} Below(q: nat, n: nat, bs: nat)
    requires bs * q < bs * n
    ensures q < n
  {
    if n <= q { MulMono(n, q, bs); }
  }

  lemma {:induction false} AtLeast(offset: nat, bs: nat, k: nat)
    requires bs > 0 && bs * k <= offset
    ensures k <= offset / bs
  {
    var q := offset / bs;
    assert offset == bs * q + offset % bs && bs * (q + 1) == bs * q + bs;
    if q < k { MulMono(q + 1, k, bs); }
  }

  /** What the boot loader finds in a container that fits: for every byte of the file,
      byte t of sector j of block k, the sector where the file system has it. */
  lemma {:induction false} SeekIsFibmap(first: nat, ss: nat, spb: nat, p: seq<nat>, offset: nat, k: nat, j: nat, t: nat)
    requires k < |p| && j < spb && t < ss && offset == ss * (k * spb + j) + t
    requires forall i :: 0 <= i < |Runs(p)| ==> CountFits(spb, Runs(p)[i]) && OffsetFits(first, spb, Runs(p)[i])
    ensures var e := Expand(Extents(first, spb, Runs(p)));
      offset / ss < |e| && e[offset / ss] == first + p[k] * spb + j
  {
    hide Runs, Expand, FileSectors, Extents;
    FittingExtents(first, spb, p);
    DivModUnique(offset, ss, k * spb + j, t);
    FileSectorAt(first, spb, p, k, j);
  }

  /** Every byte of the file is such a byte. */
  lemma {:induction false} EveryByte(ss: nat, spb: nat, n: nat, offset: nat) returns (k: nat, j: nat, t: nat)
    requires ss > 0 && spb > 0 && offset < ss * (n * spb)
    ensures k < n && j < spb && t < ss && offset == ss * (k * spb + j) + t
  {
    var q: nat;
    q, t := Divided(offset, ss);
    Below(q, n * spb, ss);
    k, j := Divided(q, spb);
    assert spb * k == k * spb && spb * n == n * spb;
    Below(k, n, spb);
  }

  lemma {:induction false} Divided(x: nat, d: nat) returns (q: nat, r: nat)
    requires d > 0
    ensures x == d * q + r && r < d
  {
    q, r := x / d, x % d;
  }

  // ---- From FIBMAP to the boot loader ------------------------------------------------------------------

  /** The extents in front of the first that looks like the end mark. */
  function UpToMark(e: seq<Extent>): (r: seq<Extent>)
    ensures r <= e && (forall i :: 0 <= i < |r| ==> r[i].offset != 0)
    ensures |r| < |e| ==> e[|r|].offset == 0
  {
    if e == [] || e[0].offset == 0 then [] else [e[0]] + UpToMark(e[1..])
  }

  /** Every run fits into an extent, and none looks like the end mark. */
  predicate AllFit(first: nat, spb: nat, p: seq<nat>)
    requires p != []
  {
    forall i :: 0 <= i < |Runs(p)| ==>
      Runs(p)[i].aggregate * spb <= 65535 && 0 < first + Runs(p)[i].zone * spb <= 0xffff_ffff
  }

  lemma {:induction false} AllListed(first: nat, spb: nat, p: seq<nat>)
    requires p != [] && AllFit(first, spb, p)
    ensures UpToMark(Extents(first, spb, Runs(p))) == Extents(first, spb, Runs(p))
  {
    hide Runs;
    var r := Runs(p);
    var e := Extents(first, spb, r);
    forall i | 0 <= i < |e| ensures e[i].offset != 0 { assert e[i] == Extended(first, spb, r[i]); }
  }

  /** The sector of byte offset of a file whose blocks are at places p, or 0 behind its end. */
  function SectorOf(first: nat, ss: nat, spb: nat, p: seq<nat>, offset: nat): nat
    requires ss > 0 && spb > 0
  {
    var q: nat := offset / ss;
    var k: nat, j: nat := q / spb, q % spb;
    if k < |p| then first + p[k] * spb + j else 0
  }

  /** The blocks that the bytes of a file are in are at places p, by FIBMAP. */
  ghost predicate IsFile(fibmap: nat -> Option<nat>, size: nat, blockSize: nat, p: seq<nat>) {
    && p != [] && blockSize * (|p| - 1) < size <= blockSize * |p|
    && forall k :: 0 <= k < |p| ==> fibmap(k) == Some(p[k])
  }

  /** When every run fits, sector is where FIBMAP has the block with byte offset, and in it
      the sector with that byte. */
  ghost predicate FoundIfFit(fibmap: nat -> Option<nat>, blockSize: nat, ss: nat, first: nat, p: seq<nat>, offset: nat,
                             sector: nat)
    requires blockSize > 0 && ss > 0
  {
    var spb: nat := blockSize / ss;
    blockSize % ss == 0 && p != [] && AllFit(first, spb, p) ==>
      fibmap(offset / blockSize).Some?
      && sector == first + fibmap(offset / blockSize).value * spb + offset % blockSize / ss
  }

  lemma {:induction false} FileIsMapped(fibmap: nat -> Option<nat>, size: nat, blockSize: nat, p: seq<nat>)
    requires blockSize > 0 && fibmap(0).Some? && IsFile(fibmap, size, blockSize, p)
    ensures p == Mapped(fibmap, BlockCount(size, blockSize))
  {
    hide Mapped, BlockCount;
    var n := BlockCount(size, blockSize);
    CountIsCeiling(size, blockSize, |p| - 1);
    CountIsCeiling(size, blockSize, |p|);
    var m := Mapped(fibmap, n);
    forall k | 0 <= k < n ensures m[k] == p[k] { assert fibmap(k) == Some(p[k]) == Some(m[k]); }
  }

  lemma {:induction false} PlaceOfByte(fibmap: nat -> Option<nat>, size: nat, blockSize: nat, ss: nat, first: nat,
                                       spb: nat, p: seq<nat>, offset: nat)
    requires ss > 0 && spb > 0 && blockSize == spb * ss && offset < size && IsFile(fibmap, size, blockSize, p)
    ensures fibmap(offset / blockSize).Some?
    ensures SectorOf(first, ss, spb, p, offset) ==
            first + fibmap(offset / blockSize).value * spb + offset % blockSize / ss
  {
    var q, t := Divided(offset, ss);
    DivModUnique(offset, ss, q, t);
    var k, j := Divided(q, spb);
    DivModUnique(q, spb, k, j);
    ByteSplit(blockSize, ss, spb, k, j, t, offset);
    DivModUnique(offset, blockSize, k, ss * j + t);
    DivModUnique(ss * j + t, ss, j, t);
    if k >= |p| { MulMono(|p|, k, blockSize); }
  }

  lemma {:induction false} ByteOfFile(fibmap: nat -> Option<nat>, size: nat, blockSize: nat, ss: nat, first: nat,
                                      p: seq<nat>, offset: nat, sector: nat)
    requires blockSize > 0 && ss > 0 && offset < size && IsFile(fibmap, size, blockSize, p) && p != []
    requires var spb: nat := blockSize / ss;
      spb > 0 && AllFit(first, spb, p) ==> sector == SectorOf(first, ss, spb, p, offset)
    ensures FoundIfFit(fibmap, blockSize, ss, first, p, offset, sector)
  {
    hide AllFit, SectorOf, IsFile;
    if blockSize % ss == 0 && AllFit(first, blockSize / ss, p) {
      var spb, r := Divided(blockSize, ss);
      DivModUnique(blockSize, ss, spb, r);
      assert ss * spb == spb * ss;
      PlaceOfByte(fibmap, size, blockSize, ss, first, spb, p, offset);
    }
  }

  lemma {:induction false} ByteSplit(blockSize: nat, ss: nat, spb: nat, k: nat, j: nat, t: nat, offset: nat)
    requires blockSize == spb * ss && offset == ss * (spb * k + j) + t && j < spb && t < ss
    ensures offset == blockSize * k + (ss * j + t) && ss * j + t < blockSize
  {
    MulMono(j + 1, spb, ss);
    assert ss * (j + 1) == ss * j + ss && ss * spb == spb * ss;
    assert ss * (spb * k + j) == ss * (spb * k) + ss * j;
    assert ss * (spb * k) == (spb * ss) * k;
  }

  /** The installer makes the container of a file, and the boot loader looks for a byte of
      the file: it finds the sector where FIBMAP says that the byte is. */
  method InstallAndSeek(fibmap: nat -> Option<nat>, size: nat, blockSize: nat, sectorSize: nat, first: nat,
                        blocks: array<Extent>, maxblocks: nat, offset: nat) returns (ret: int, sector: nat)
    requires blockSize > 0 && sectorSize > 0 && maxblocks < blocks.Length && fibmap(0).Some?
    modifies blocks
    ensures var spb: nat, p := blockSize / sectorSize, Mapped(fibmap, BlockCount(size, blockSize));
      && (ret == 0 <==> |Runs(p)| + 1 <= maxblocks)
      && (ret == 0 && spb > 0 && AllFit(first, spb, p) ==> sector == SectorOf(first, sectorSize, spb, p, offset))
    ensures forall p: seq<nat> :: ret == 0 && IsFile(fibmap, size, blockSize, p) && offset < size ==>
      FoundIfFit(fibmap, blockSize, sectorSize, first, p, offset, sector)
  {
    hide Runs, Expand, Extents, Mapped, AllFit, BlockCount, SectorOf, IsFile, FoundIfFit;
    ret := CreateContainer(fibmap, size, blockSize, sectorSize, first, blocks, maxblocks);
    sector := 0;
    if ret != 0 { return; }
    ghost var spb: nat, p := blockSize / sectorSize, Mapped(fibmap, BlockCount(size, blockSize));
    ghost var e := Extents(first, spb, Runs(p));
    ListEnds(blocks, e);
    sector := SeekBlock(blocks, UpToMark(e), offset, sectorSize);
    if spb > 0 && AllFit(first, spb, p) {
      AllListed(first, spb, p);
      ByteFound(first, sectorSize, spb, p, offset);
    }
    forall r: seq<nat> | IsFile(fibmap, size, blockSize, r) && offset < size
      ensures FoundIfFit(fibmap, blockSize, sectorSize, first, r, offset, sector) {
      FileIsMapped(fibmap, size, blockSize, r);
      ByteOfFile(fibmap, size, blockSize, sectorSize, first, r, offset, sector);
    }
  }

  lemma {:induction false} ListEnds(blocks: array<Extent>, e: seq<Extent>)
    requires |e| < blocks.Length && blocks[..|e| + 1] == e + [Extent(0, 0)]
    ensures var r := UpToMark(e);
      && |r| < blocks.Length && blocks[..|r|] == r && blocks[|r|].offset == 0
      && forall i :: 0 <= i < |r| ==> r[i].offset != 0
  {
    var r := UpToMark(e);
    assert blocks[..|r|] == (e + [Extent(0, 0)])[..|r|] == e[..|r|] == r;
    assert blocks[|r|] == (e + [Extent(0, 0)])[|r|];
  }

  lemma {:induction false} ByteFound(first: nat, ss: nat, spb: nat, p: seq<nat>, offset: nat)
    requires ss > 0 && spb > 0 && p != [] && AllFit(first, spb, p)
    ensures var e, q: nat := Expand(Extents(first, spb, Runs(p))), offset / ss;
      SectorOf(first, ss, spb, p, offset) == if q < |e| then e[q] else 0
  {
    hide Runs, Expand, FileSectors, Extents;
    FittingExtents(first, spb, p);
    FileSectorsSize(first, spb, p);
    var q, t := Divided(offset, ss);
    DivModUnique(offset, ss, q, t);
    var k, j := Divided(q, spb);
    DivModUnique(q, spb, k, j);
    if k < |p| {
      FileSectorAt(first, spb, p, k, j);
      assert k * spb == spb * k;
    } else {
      MulMono(|p|, k, spb);
      assert spb * |p| == |p| * spb;
    }
  }
}
