/** libext2/ext2_utils.c: reading a file through one cached block. Pointer blocks and data
    blocks go through the same buffer. */
module Ext2 {
  import opened Bits

  /** A device of sectors, and the size of the blocks of the file system on it. */
  datatype Disk = Disk(device: nat -> byte, blocksize: nat, sector: nat) {
    predicate Valid() { 1024 <= blocksize && blocksize % 4 == 0 && sector > 0 }

    /** EXT2_ADDR_PER_BLOCK */
    function PerBlock(): nat { blocksize / 4 }

    /** Where block b begins: the sector number is computed in 32 bits. */
    function Start(b: u32): nat
      requires sector > 0
    {
      b * (blocksize / sector) % 0x1_0000_0000 * sector
    }

    function Block(b: u32): (s: seq<byte>)
      requires sector > 0
      ensures |s| == blocksize
    {
      seq<byte>(blocksize, i requires 0 <= i < blocksize => device(Start(b) + i))
    }
  }

  datatype Inode = Inode(size: u32, block: seq<u32>)

  const NDIR: nat := 12
  const IND: nat := 12
  const DIND: nat := 13
  const TIND: nat := 14

  /** The little-endian word i of a block. */
  function Word(s: seq<byte>, i: nat): u32
    requires 4 * i + 4 <= |s|
  {
    var b0: nat, b1: nat, b2: nat, b3: nat := s[4 * i], s[4 * i + 1], s[4 * i + 2], s[4 * i + 3];
    b0 + 256 * b1 + 65536 * b2 + 16777216 * b3
  }

  /** It is the number of the 32 bits of those four bytes, the first byte's bits being the
      lowest. */
  lemma {:induction false} WordIsBits(s: seq<byte>, i: nat)
    requires 4 * i + 4 <= |s|
    ensures Word(s, i) == LE(ByteBits(s[4 * i..4 * i + 4]))
  {
    hide LE, ToLE, Shl, ByteBits;
    var w := s[4 * i..4 * i + 4];
    BytesBefore(w);
    BytesBefore(w[1..]);
    BytesBefore(w[2..]);
    BytesBefore(w[3..]);
    NoBits();
    assert w[1..][1..] == w[2..] && w[2..][1..] == w[3..] && w[3..][1..] == [];
  }

  lemma {:induction false} NoBits()
    ensures LE(ByteBits([])) == 0
  {}

  lemma {:induction false} BytesBefore(s: seq<byte>)
    requires s != []
    ensures LE(ByteBits(s)) == s[0] + 256 * LE(ByteBits(s[1..]))
  {
    hide LE, Low;
    LEAppend(ToLE(8, s[0]), ByteBits(s[1..]));
    LEToLE(8, s[0]);
    Pow2Values();
    LowSmall(s[0], 8);
    ShlIsProduct(LE(ByteBits(s[1..])), 8);
  }

  /** The sectors of a block, when they are whole: byte i of block b is that at b times the
      block size, exactly as long as the number of the first of them fits 32 bits. */
  lemma {:induction false} BlockOnDevice(d: Disk, b: u32, k: nat)
    requires d.Valid() && d.blocksize == k * d.sector
    ensures d.Start(b) == b * d.blocksize <==> b * k < 0x1_0000_0000
    ensures b * k < 0x1_0000_0000 ==>
      forall i: nat :: i < d.blocksize ==> d.Block(b)[i] == d.device(b * d.blocksize + i)
  {
    var x: nat := b * k;
    DivModUnique(d.blocksize, d.sector, k, 0);
    assert d.sector * k == d.blocksize && b * (k * d.sector) == x * d.sector;
    Scaled(x % 0x1_0000_0000, x, d.sector);
  }

  lemma {:induction false} Scaled(x: nat, y: nat, n: nat)
    requires n > 0
    ensures x * n == y * n <==> x == y
  {
    if x < y { MulMono(x + 1, y, n); }
    if y < x { MulMono(y + 1, x, n); }
  }

  // ---- The file that the pointer tree defines --------------------------------------------

  /** How many blocks a tree of that depth has. */
  function Leaves(a: nat, depth: nat): nat { if depth == 0 then 1 else a * Leaves(a, depth - 1) }

  /** Block idx of the tree below root. */
  function Walk(d: Disk, root: u32, depth: nat, idx: nat): u32
    requires d.Valid() && idx < Leaves(d.PerBlock(), depth)
    decreases depth
  {
    if depth == 0 then root
    else
      var n := Leaves(d.PerBlock(), depth - 1);
      IndexFits(idx, d.PerBlock(), n);
      Walk(d, Word(d.Block(root), idx / n), depth - 1, idx % n)
  }

  lemma {:induction false} IndexFits(idx: nat, a: nat, n: nat)
    requires idx < a * n
    ensures n > 0 && idx / n < a && idx % n < n
  {
    Factor(idx, a, n);
    var q, r := idx / n, idx % n;
    assert idx == n * q + r;
    assert n * q < n * a;
    LessFactor(q, a, n);
  }

  lemma {:induction false} Factor(idx: nat, a: nat, n: nat)
    requires idx < a * n
    ensures n > 0
  {}

  lemma {:induction false} LessFactor(x: nat, a: nat, n: nat)
    requires n * x < n * a
    ensures x < a
  {
    if a <= x { MulMono(a, x, n); }
  }

  /** The first file blocks that take double and triple indirection. */
  function FirstTriple(d: Disk): nat { NDIR + Leaves(d.PerBlock(), 1) + Leaves(d.PerBlock(), 2) }
  function TooFar(d: Disk): nat { FirstTriple(d) + Leaves(d.PerBlock(), 3) }

  /** The block that file block l is in, with triple indirection starting from triple. */
  function AddrFrom(d: Disk, block: seq<u32>, l: nat, triple: u32): u32
    requires d.Valid() && |block| == 15 && l < TooFar(d)
  {
    var a := d.PerBlock();
    if l < NDIR then block[l]
    else if l - NDIR < Leaves(a, 1) then Walk(d, block[IND], 1, l - NDIR)
    else if l - NDIR - Leaves(a, 1) < Leaves(a, 2) then Walk(d, block[DIND], 2, l - NDIR - Leaves(a, 1))
    else Walk(d, triple, 3, l - FirstTriple(d))
  }

  /** The ext2 format. */
  function Addr(d: Disk, ino: Inode, l: nat): u32
    requires d.Valid() && |ino.block| == 15 && l < TooFar(d)
  {
    AddrFrom(d, ino.block, l, ino.block[TIND])
  }

  /** What ext2_get_block_addr computes: its triple indirection starts from the root of
      double indirection. */
  function CodeAddr(d: Disk, ino: Inode, l: nat): u32
    requires d.Valid() && |ino.block| == 15 && l < TooFar(d)
  {
    AddrFrom(d, ino.block, l, ino.block[DIND])
  }

  /** The same without recursion: twelve direct blocks, then those named in block 12, those in
      the blocks named in block 13, and those in the blocks that these name below triple. */
  lemma {:induction false} DirectAddr(d: Disk, block: seq<u32>, triple: u32, i: nat)
    requires d.Valid() && |block| == 15 && i < 12
    ensures i < TooFar(d) && AddrFrom(d, block, i, triple) == block[i]
  {
    hide Leaves;
  }

  lemma {:induction false} IndirectAddr(d: Disk, block: seq<u32>, triple: u32, i: nat)
    requires d.Valid() && |block| == 15 && 4 * i < d.blocksize
    ensures 12 + i < TooFar(d) && AddrFrom(d, block, 12 + i, triple) == Word(d.Block(block[12]), i)
  {
    hide Disk.Block, Word;
    TreeSizes(d.PerBlock());
    OneLevel(d, block[12], 0, i, i, 0);
  }

  lemma {:induction false} DoubleAddr(d: Disk, block: seq<u32>, triple: u32, i: nat, j: nat)
    requires d.Valid() && |block| == 15 && 4 * i < d.blocksize && 4 * j < d.blocksize
    ensures var a := d.blocksize / 4; var l := 12 + a + i * a + j;
      l < TooFar(d) && AddrFrom(d, block, l, triple) == Word(d.Block(Word(d.Block(block[13]), i)), j)
  {
    hide Disk.Block, Word, Walk, Leaves;
    var a := d.PerBlock();
    TreeSizes(a);
    InRow(a, i, j, a);
    OneLevel(d, block[13], 1, i * a + j, i, j);
    OneLevel(d, Word(d.Block(block[13]), i), 0, j, j, 0);
    WalkHere(d, Word(d.Block(Word(d.Block(block[13]), i)), j));
  }

  lemma {:induction false} TripleAddr(d: Disk, block: seq<u32>, triple: u32, i: nat, j: nat, k: nat)
    requires d.Valid() && |block| == 15 && 4 * i < d.blocksize && 4 * j < d.blocksize && 4 * k < d.blocksize
    ensures var a := d.blocksize / 4; var l := 12 + a + a * a + i * (a * a) + j * a + k;
      && l < TooFar(d)
      && AddrFrom(d, block, l, triple) == Word(d.Block(Word(d.Block(Word(d.Block(triple), i)), j)), k)
  {
    hide Disk.Block, Word, Walk, Leaves;
    var a := d.PerBlock();
    TreeSizes(a);
    InRow(a, j, k, a);
    InRow(a * a, i, j * a + k, a);
    OneLevel(d, triple, 2, i * (a * a) + (j * a + k), i, j * a + k);
    OneLevel(d, Word(d.Block(triple), i), 1, j * a + k, j, k);
    OneLevel(d, Word(d.Block(Word(d.Block(triple), i)), j), 0, k, k, 0);
    WalkHere(d, Word(d.Block(Word(d.Block(Word(d.Block(triple), i)), j)), k));
  }

  lemma {:induction false} WalkHere(d: Disk, root: u32)
    requires d.Valid()
    ensures 0 < Leaves(d.PerBlock(), 0) && Walk(d, root, 0, 0) == root
  {}

  /** Place j of row i, of m rows with n places. */
  lemma {:induction false} InRow(n: nat, i: nat, j: nat, m: nat)
    requires i < m && j < n
    ensures i * n + j < m * n && n * i == i * n
  {
    MulMono(i + 1, m, n);
    assert n * (i + 1) == n * i + n && n * m == m * n && n * i == i * n;
  }

  lemma {:induction false} AddrRight(d: Disk, ino: Inode, l: nat)
    requires d.Valid() && |ino.block| == 15 && l < FirstTriple(d)
    ensures CodeAddr(d, ino, l) == Addr(d, ino, l)
  {}

  // ---- Where the code differs from the format ---------------------------------------------

  /** A disk with zeros in its first two blocks, and ones everywhere else. */
  function Trap(bs: nat): Disk
    requires bs > 0
  {
    Disk(p => if p / bs <= 1 then 0 else 1, bs, bs)
  }

  lemma {:induction false} TrapByte(bs: nat, b: u32, i: nat)
    requires bs > 0 && i < bs
    ensures Trap(bs).Block(b)[i] == if b <= 1 then 0 else 1
  {
    var d := Trap(bs);
    assert bs / bs == 1;
    assert b * 1 == b && d.Start(b) == b * bs == bs * b;
    DivModUnique(bs * b + i, bs, b, i);
  }

  lemma {:induction false} TrapWord(bs: nat, b: u32, i: nat)
    requires bs > 0 && 4 * i + 4 <= bs
    ensures Word(Trap(bs).Block(b), i) == if b <= 1 then 0 else 0x01010101
  {
    TrapByte(bs, b, 4 * i);
    TrapByte(bs, b, 4 * i + 1);
    TrapByte(bs, b, 4 * i + 2);
    TrapByte(bs, b, 4 * i + 3);
  }

  lemma {:induction false} TrapWalk(bs: nat, root: u32, depth: nat, idx: nat)
    requires bs > 0 && Trap(bs).Valid() && idx < Leaves(bs / 4, depth)
    ensures Walk(Trap(bs), root, depth, idx) ==
            if depth == 0 then root else if root <= 1 then 0 else 0x01010101
    decreases depth
  {
    if depth == 0 {
    } else {
      var d, n := Trap(bs), Leaves(bs / 4, depth - 1);
      IndexFits(idx, bs / 4, n);
      TrapWord(bs, root, idx / n);
      TrapWalk(bs, Word(d.Block(root), idx / n), depth - 1, idx % n);
    }
  }

  /** The address is right on every disk exactly for the blocks before triple
      indirection. */
  lemma {:induction false} AddrRightIff(bs: nat, l: nat)
    requires bs > 0 && Trap(bs).Valid() && l < TooFar(Trap(bs))
    ensures l < FirstTriple(Trap(bs)) <==>
            forall d: Disk, ino: Inode :: d.Valid() && d.blocksize == bs && |ino.block| == 15 ==>
              l < TooFar(d) && CodeAddr(d, ino, l) == Addr(d, ino, l)
  {
    var t := Trap(bs);
    forall d: Disk, ino: Inode | d.Valid() && d.blocksize == bs && |ino.block| == 15 && l < FirstTriple(t)
      ensures l < TooFar(d) && CodeAddr(d, ino, l) == Addr(d, ino, l) {
      AddrRight(d, ino, l);
    }
    var ino := Inode(0, [0, 0, 0, 0, 0, 0, 0, 0, 0, 0, 0, 0, 0, 1, 2]);
    if l >= FirstTriple(t) {
      TrapWalk(bs, 1, 3, l - FirstTriple(t));
      TrapWalk(bs, 2, 3, l - FirstTriple(t));
      assert CodeAddr(t, ino, l) != Addr(t, ino, l);
    }
  }

  // ---- The cached block ---------------------------------------------------------------------

  /** The block that byte p is in, and where in it. */
  function Quot(p: nat, bs: nat): nat
    requires bs > 0
  {
    p / bs
  }

  function Index(p: nat, bs: nat): (i: nat)
    requires bs > 0
    ensures i < bs
  {
    p % bs
  }

  lemma {:induction false} QuotIndex(p: nat, bs: nat)
    requires bs > 0
    ensures p == bs * Quot(p, bs) + Index(p, bs)
    ensures bs * (Quot(p, bs) + 1) == bs * Quot(p, bs) + bs
  {}

  /** Every block of a file of 32-bit size can be addressed. */
  lemma {:induction false} SizeFits(d: Disk, p: nat)
    requires d.Valid() && p < 0x1_0000_0000
    ensures Quot(p, d.blocksize) < TooFar(d)
  {
    var a := d.PerBlock();
    assert a >= 256;
    assert Leaves(a, 1) == a && Leaves(a, 2) == a * Leaves(a, 1) && Leaves(a, 3) == a * Leaves(a, 2);
    MulMono(256, a, a);
    assert Leaves(a, 2) >= 65536;
    MulMono(65536, Leaves(a, 2), a);
    assert a * Leaves(a, 2) >= a * 65536;
    assert TooFar(d) > 0x40_0000;
    QuotientBelow(p, d.blocksize);
  }

  lemma {:induction false} QuotientBelow(p: nat, bs: nat)
    requires p < 0x1_0000_0000 && bs >= 1024
    ensures p / bs < 0x40_0000
  {
    var q := p / bs;
    assert p == bs * q + p % bs;
    MulMono(1024, bs, q);
    assert q * 1024 <= bs * q;
  }

  /** File block l, where the code finds it. */
  function FileBlock(d: Disk, ino: Inode, l: nat): (s: seq<byte>)
    requires d.Valid() && |ino.block| == 15 && l < TooFar(d)
    ensures |s| == d.blocksize
  {
    d.Block(CodeAddr(d, ino, l))
  }

  /** How far triple indirection reaches. */
  function Reach(d: Disk): nat { d.blocksize * TooFar(d) }

  /** That is beyond every 32-bit size. */
  lemma {:induction false} SizeInReach(d: Disk)
    requires d.Valid()
    ensures 0x1_0000_0000 <= Reach(d)
  {
    hide TooFar;
    SizeFits(d, 0xffff_ffff);
    QuotIndex(0xffff_ffff, d.blocksize);
    MulMono(Quot(0xffff_ffff, d.blocksize) + 1, TooFar(d), d.blocksize);
  }

  lemma {:induction false} InReach(d: Disk, p: nat)
    requires d.Valid() && p < Reach(d)
    ensures Quot(p, d.blocksize) < TooFar(d)
  {
    hide TooFar, Quot, Index;
    QuotIndex(p, d.blocksize);
    LessFactor(Quot(p, d.blocksize), TooFar(d), d.blocksize);
  }

  /** Byte p of the file, with its blocks where the code finds them. */
  function FileByte(d: Disk, ino: Inode, p: nat): byte
    requires d.Valid() && |ino.block| == 15 && p < Reach(d)
  {
    hide TooFar, CodeAddr, Quot;
    InReach(d, p);
    FileBlock(d, ino, Quot(p, d.blocksize))[Index(p, d.blocksize)]
  }

  /** Bytes p to p + n of the file. */
  function FileBytes(d: Disk, ino: Inode, p: nat, n: nat): (s: seq<byte>)
    requires d.Valid() && |ino.block| == 15 && p + n <= Reach(d)
    ensures |s| == n
  {
    seq<byte>(n, i requires 0 <= i < n => FileByte(d, ino, p + i))
  }

  /** Byte p of the file that the pointer tree defines. */
  function TreeByte(d: Disk, ino: Inode, p: nat): byte
    requires d.Valid() && |ino.block| == 15 && p < Reach(d)
  {
    InReach(d, p);
    d.Block(Addr(d, ino, Quot(p, d.blocksize)))[Index(p, d.blocksize)]
  }

  function TreeBytes(d: Disk, ino: Inode, p: nat, n: nat): (s: seq<byte>)
    requires d.Valid() && |ino.block| == 15 && p + n <= Reach(d)
    ensures |s| == n
  {
    seq<byte>(n, i requires 0 <= i < n => TreeByte(d, ino, p + i))
  }

  /** Up to triple indirection, the code finds the bytes of the file. */
  lemma {:induction false} FileIsTree(d: Disk, ino: Inode, p: nat, n: nat)
    requires d.Valid() && |ino.block| == 15 && p + n <= Reach(d)
    requires p + n <= d.blocksize * FirstTriple(d)
    ensures FileBytes(d, ino, p, n) == TreeBytes(d, ino, p, n)
  {
    hide Disk.Valid, FirstTriple, FileByte, TreeByte, Reach;
    var x, y := FileBytes(d, ino, p, n), TreeBytes(d, ino, p, n);
    forall i: nat | i < n ensures x[i] == y[i] { FileByteIsTree(d, ino, p + i); }
  }

  lemma {:induction false} FileByteIsTree(d: Disk, ino: Inode, p: nat)
    requires d.Valid() && |ino.block| == 15 && p < Reach(d) && p < d.blocksize * FirstTriple(d)
    ensures FileByte(d, ino, p) == TreeByte(d, ino, p)
  {
    hide FirstTriple, Quot, Index, CodeAddr, Addr, Disk.Block, Reach;
    InReach(d, p);
    QuotIndex(p, d.blocksize);
    LessFactor(Quot(p, d.blocksize), FirstTriple(d), d.blocksize);
    AddrRight(d, ino, Quot(p, d.blocksize));
  }

  /** A part of block l is within reach exactly if the block is. */
  lemma {:induction false} BlockInReach(d: Disk, l: nat, i: nat)
    requires d.Valid() && i < d.blocksize
    ensures l < TooFar(d) <==> d.blocksize * l + i < Reach(d)
    ensures l < TooFar(d) ==> d.blocksize * l + d.blocksize <= Reach(d)
  {
    hide TooFar;
    if l < TooFar(d) {
      MulMono(l + 1, TooFar(d), d.blocksize);
    } else {
      MulMono(TooFar(d), l, d.blocksize);
    }
  }

  lemma {:induction false} ByteOfBlock(d: Disk, ino: Inode, l: nat, i: nat)
    requires d.Valid() && |ino.block| == 15 && i < d.blocksize && l < TooFar(d)
    requires d.blocksize * l + i < Reach(d)
    ensures FileByte(d, ino, d.blocksize * l + i) == FileBlock(d, ino, l)[i]
  {
    hide TooFar, CodeAddr, FileBlock, Reach;
    DivModUnique(d.blocksize * l + i, d.blocksize, l, i);
    InReach(d, d.blocksize * l + i);
  }

  /** The bytes of one block of the file. */
  lemma {:induction false} BytesOfBlock(d: Disk, ino: Inode, l: nat, shift: nat, n: nat)
    requires d.Valid() && |ino.block| == 15 && shift + n <= d.blocksize && l < TooFar(d)
    requires d.blocksize * l + shift + n <= Reach(d)
    ensures FileBytes(d, ino, d.blocksize * l + shift, n) == FileBlock(d, ino, l)[shift..shift + n]
  {
    hide Disk.Valid, TooFar, FileBlock, FileByte, Reach;
    var x, y := FileBytes(d, ino, d.blocksize * l + shift, n), FileBlock(d, ino, l)[shift..shift + n];
    forall i: nat | i < n ensures x[i] == y[i] { ByteOfBlock(d, ino, l, shift + i); }
  }

  lemma {:induction false} FileBytesAppend(d: Disk, ino: Inode, p: nat, m: nat, n: nat)
    requires d.Valid() && |ino.block| == 15 && p + m + n <= Reach(d)
    ensures FileBytes(d, ino, p, m + n) == FileBytes(d, ino, p, m) + FileBytes(d, ino, p + m, n)
  {
    hide Disk.Valid, FileByte, Reach;
  }

  // ---- Where reading starts -----------------------------------------------------------------

  /** Conversion of 32 bits to int. */
  function ToInt(n: u32): (i: int) { if n < 0x8000_0000 then n else n - 0x1_0000_0000 }

  /** Division of ints, which truncates. */
  function DivInt(a: int, b: nat): int
    requires b > 0
  {
    var q: int := Quot(if a < 0 then -a else a, b);
    if a < 0 then -q else q
  }

  function RemInt(a: int, b: nat): int
    requires b > 0
  {
    var r: int := Index(if a < 0 then -a else a, b);
    if a < 0 then -r else r
  }

  /** The file block in which ext2_read_data starts, and the place in it. */
  function StartBlock(offset: u32, bs: nat): u32
    requires bs > 0
  {
    DivInt(ToInt(offset), bs) % 0x1_0000_0000
  }

  function Shift(offset: u32, bs: nat): int
    requires bs > 0
  {
    RemInt(ToInt(offset), bs)
  }

  /** The position in the file where that is. */
  function StartAt(offset: u32, bs: nat): int
    requires bs > 0
  {
    bs * StartBlock(offset, bs) + Shift(offset, bs)
  }

  lemma {:induction false} WrappedBlock(q: int, bs: nat)
    requires 0 < q < 0x1_0000_0000 && bs > 0
    ensures (-q) % 0x1_0000_0000 == 0x1_0000_0000 - q
    ensures bs * (0x1_0000_0000 - q) == bs * 0x1_0000_0000 - bs * q
  {}

  /** A negative place, or block 2^32 - q: never where the file has the byte. */
  lemma {:induction false} StartsWrong(offset: u32, bs: nat)
    requires 0x8000_0000 <= offset && bs > 0
    ensures Shift(offset, bs) <= 0
    ensures StartAt(offset, bs) == if 0x1_0000_0000 - offset < bs then offset - 0x1_0000_0000
                                   else bs * 0x1_0000_0000 - (0x1_0000_0000 - offset)
  {
    hide Quot, Index;
    var k: nat := 0x1_0000_0000 - offset;
    var q := Quot(k, bs);
    QuotIndex(k, bs);
    if k < bs {
      DivModUnique(k, bs, 0, k);
      QuotIsDiv(k, bs);
    } else {
      QuotBound(k, bs);
      WrappedBlock(q, bs);
    }
  }

  lemma {:induction false} QuotIsDiv(p: nat, bs: nat)
    requires bs > 0
    ensures Quot(p, bs) == p / bs && Index(p, bs) == p % bs
  {}

  lemma {:induction false} QuotBound(p: nat, bs: nat)
    requires 0 < bs <= p
    ensures 1 <= Quot(p, bs) <= p
  {
    hide Quot, Index;
    var q := Quot(p, bs);
    QuotIndex(p, bs);
    MulMono(1, bs, q);
    if q < 1 { MulMono(q + 1, 1, bs); }
  }

  /** The block and the place that ext2_read_data starts with are those of the byte at
      offset exactly if the offset is below 2 GiB. */
  lemma {:induction false} StartsRightIff(offset: u32, bs: nat)
    requires bs > 1
    ensures StartBlock(offset, bs) == Quot(offset, bs) && Shift(offset, bs) == Index(offset, bs) <==>
            offset < 0x8000_0000
    ensures StartAt(offset, bs) == offset <==> offset < 0x8000_0000
  {
    hide Quot, Index;
    QuotIndex(offset, bs);
    if offset < 0x8000_0000 {
      QuotSmall(offset, bs);
    } else {
      StartsWrong(offset, bs);
    }
  }

  lemma {:induction false} QuotSmall(p: u32, bs: nat)
    requires bs > 0
    ensures Quot(p, bs) < 0x1_0000_0000
  {}

  /** Two GiB into a file, with blocks of 1024 bytes: the code asks for a block that triple
      indirection does not reach. */
  lemma {:induction false} TwoGiB(d: Disk)
    requires d.Valid() && d.blocksize == 1024
    ensures StartBlock(0x8000_0000, 1024) == 0xffe0_0000 && Quot(0x8000_0000, 1024) == 0x20_0000
    ensures TooFar(d) <= StartBlock(0x8000_0000, 1024) && Reach(d) <= StartAt(0x8000_0000, 1024)
  {
    TreeSizes(256);
  }

  class Volume {
    const disk: Disk
    var current: u32
    const buffer: array<byte>

    /** The buffer always holds the block that current says. */
    ghost predicate Valid()
      reads this, buffer
    {
      disk.Valid() && buffer.Length == disk.blocksize && buffer[..] == disk.Block(current)
    }

    /** ext2_mount(): no block is cached, and then block 0 is read. */
    constructor (d: Disk)
      requires d.Valid()
      ensures Valid() && disk == d && current == 0 && fresh(buffer)
    {
      disk := d;
      current := 0xffff_ffff;
      buffer := new byte[d.blocksize];
      new;
      Fetch(0);
    }

    /** ext2_read_block() of a block that is not cached. */
    method Fetch(fsblock: u32)
      requires disk.Valid() && buffer.Length == disk.blocksize
      modifies `current, buffer
      ensures Valid() && current == fsblock
    {
      current := fsblock;
      var block := disk.Block(fsblock);
      forall i | 0 <= i < disk.blocksize { buffer[i] := block[i]; }
    }

    /** ext2_read_block() */
    method ReadBlock(fsblock: u32)
      requires Valid()
      modifies `current, buffer
      ensures Valid() && current == fsblock
    {
      if fsblock == current { return; }
      Fetch(fsblock);
    }

    /** Word i of the block fsblock, through the cache. */
    method ReadWord(fsblock: u32, i: nat) returns (w: u32)
      requires Valid() && 4 * i + 4 <= disk.blocksize
      modifies `current, buffer
      ensures Valid() && w == Word(disk.Block(fsblock), i)
    {
      hide Disk.Block;
      ReadBlock(fsblock);
      w := Word(buffer[..], i);
    }

    /** One level of the tree below root: entry q, and place r below it. */
    method Below(root: u32, ghost depth: nat, ghost l: nat, q: nat, ghost r: nat) returns (below: u32)
      requires Valid() && l < Leaves(disk.PerBlock(), depth + 1) && r < Leaves(disk.PerBlock(), depth)
      requires l == Leaves(disk.PerBlock(), depth) * q + r
      modifies `current, buffer
      ensures Valid() && Walk(disk, below, depth, r) == Walk(disk, root, depth + 1, l)
    {
      hide Disk.Block, Word, Walk;
      OneLevel(disk, root, depth, l, q, r);
      below := ReadWord(root, q);
    }

    method Indirect(root: u32, l: nat) returns (physical: u32)
      requires Valid() && l < Leaves(disk.PerBlock(), 1)
      modifies `current, buffer
      ensures Valid() && physical == Walk(disk, root, 1, l)
    {
      hide Disk.Block, Leaves;
      TreeSizes(disk.PerBlock());
      physical := Below(root, 0, l, l, 0);
    }

    method DoubleIndirect(root: u32, l: nat) returns (physical: u32)
      requires Valid() && l < Leaves(disk.PerBlock(), 2)
      modifies `current, buffer
      ensures Valid() && physical == Walk(disk, root, 2, l)
    {
      hide Disk.Block, Leaves, Walk;
      var a := disk.PerBlock();
      TreeSizes(a);
      physical := Below(root, 1, l, l / a, l % a);
      physical := Indirect(physical, l % a);
    }

    method TripleIndirect(root: u32, l: nat) returns (physical: u32)
      requires Valid() && l < Leaves(disk.PerBlock(), 3)
      modifies `current, buffer
      ensures Valid() && physical == Walk(disk, root, 3, l)
    {
      hide Disk.Block, Leaves, Walk;
      var a := disk.PerBlock();
      var n := a * a;
      TreeSizes(a);
      IndexFits(l, a, n);
      physical := Below(root, 2, l, l / n, l % n);
      physical := DoubleIndirect(physical, l % n);
    }

    /** ext2_get_block_addr() */
    method GetBlockAddr(ino: Inode, logical: u32) returns (physical: u32)
      requires Valid() && |ino.block| == 15 && logical < TooFar(disk)
      modifies `current, buffer
      ensures Valid() && physical == CodeAddr(disk, ino, logical)
    {
      hide Disk.Block, Leaves, Walk;
      var l := logical;
      if l < NDIR { return ino.block[l]; }
      l := l - NDIR;
      var a := disk.PerBlock();
      TreeSizes(a);
      if l < a {
        physical := Indirect(ino.block[IND], l);
        return;
      }
      l := l - a;
      if l < a * a {
        physical := DoubleIndirect(ino.block[DIND], l);
        return;
      }
      l := l - a * a;
      physical := TripleIndirect(ino.block[DIND], l);
    }

    /** A block of the file, through the cache. */
    method ReadFileBlock(ino: Inode, logical: u32)
      requires Valid() && |ino.block| == 15 && logical < TooFar(disk)
      modifies `current, buffer
      ensures Valid() && buffer[..] == FileBlock(disk, ino, logical)
    {
      hide Disk.Block, CodeAddr, TooFar;
      var physical := GetBlockAddr(ino, logical);
      ReadBlock(physical);
    }

    /** memcpy(out + at, buffer + shift, n) */
    method CopyOut(out: array<byte>, at: nat, shift: nat, n: nat)
      requires out != buffer && shift + n <= buffer.Length && at + n <= out.Length
      modifies out
      ensures out[at..at + n] == buffer[shift..shift + n]
      ensures out[..at] == old(out[..at]) && out[at + n..] == old(out[at + n..])
    {
      forall i | 0 <= i < n { out[at + i] := buffer[shift + i]; }
    }

    /** Bytes at + read to at most the end of block logical, at shift in it. */
    method ReadPart(ino: Inode, ghost at: nat, out: array<byte>, read: nat, logical: u32, shift: nat, n: nat,
                    ghost was: seq<byte>)
      requires Valid() && |ino.block| == 15 && out != buffer && read + n <= out.Length == |was|
      requires shift + n <= disk.blocksize && logical < TooFar(disk)
      requires at + read == disk.blocksize * logical + shift && at + read + n <= Reach(disk)
      requires Got(disk, ino, at, read, was, out[..])
      modifies `current, buffer, out
      ensures Valid() && Got(disk, ino, at, read + n, was, out[..])
    {
      hide Disk.Block, Disk.Valid, TooFar, FileBytes, FileBlock, Reach;
      NothingRead(disk, ino, at);
      ReadFileBlock(ino, logical);
      BytesOfBlock(disk, ino, logical, shift, n);
      FileBytesAppend(disk, ino, at, read, n);
      assert out[..read] == FileBytes(disk, ino, at, read) && out[read..] == was[read..];
      CopyOut(out, read, shift, n);
      assert out[..read + n] == out[..read] + out[read..read + n];
      assert was[read + n..] == was[read..][n..];
    }

    /** ext2_read_data(): the bytes of the file that are asked for and there, and no others;
        -1 past its end. From 2 GiB on, it reads where StartAt says. */
    method ReadData(ino: Inode, offset: nat, out: array<byte>, size: nat) returns (ret: Count)
      requires Valid() && |ino.block| == 15 && out != buffer && size <= out.Length
      modifies `current, buffer, out
      ensures Valid()
      ensures offset >= ino.size ==> ret == Count(-1) && out[..] == old(out[..])
      ensures offset < ino.size ==> var n := Min(size, ino.size - offset);
        if offset < 0x8000_0000 then
          ret == Count(ToInt(n)) && Got(disk, ino, offset, n, old(out[..]), out[..])
        else if Inside(disk, offset, n) then
          ret == Count(ToInt(n)) && Got(disk, ino, StartAt(offset, disk.blocksize), n, old(out[..]), out[..])
        else
          ret == Outside
      ensures offset < ino.size && offset < 0x8000_0000 ==> var n := Min(size, ino.size - offset);
        offset + n <= disk.blocksize * FirstTriple(disk) ==> IsTree(disk, ino, offset, out[..n])
    {
      hide Disk.Block, Disk.Valid, TooFar, Got, Shift, StartAt, FirstTriple, IsTree;
      BlockSize(disk);
      if offset >= ino.size { return Count(-1); }
      var length := size;
      if offset + length >= ino.size { length := ino.size - offset; }
      Starts(disk, offset);
      ghost var was := out[..];
      ret := ReadPresent(ino, offset, out, length);
      if offset < 0x8000_0000 && offset + length <= disk.blocksize * FirstTriple(disk) {
        GotIsTree(disk, ino, offset, length, was, out[..]);
      }
    }

    /** Bytes that the file has: the end of a block, and then blocks. */
    method ReadPresent(ino: Inode, offset: u32, out: array<byte>, size: nat) returns (ret: Count)
      requires Valid() && |ino.block| == 15 && out != buffer && size <= out.Length && offset + size < 0x1_0000_0000
      modifies `current, buffer, out
      ensures Valid()
      ensures var at := StartAt(offset, disk.blocksize);
        if Inside(disk, offset, size)
        then ret == Count(ToInt(size)) && Got(disk, ino, at, size, old(out[..]), out[..])
        else ret == Outside
    {
      hide Disk.Block, Disk.Valid, TooFar, Got, Shift, StartBlock, StartAt, Reach;
      BlockSize(disk);
      var length: nat, bs := size, disk.blocksize;
      var logical: nat, shift := StartBlock(offset, bs), Shift(offset, bs);
      ShiftBound(offset, size, bs);
      ghost var at, was := StartAt(offset, bs), out[..];
      NothingGot(disk, ino, at, was);
      if shift < 0 {
        if logical >= TooFar(disk) { return Outside; }
        ReadFileBlock(ino, logical);
        return if length == 0 then Count(0) else Outside;
      }
      var read: nat := 0;
      if shift != 0 {
        Starts(disk, offset);
        BlockInReach(disk, logical, shift);
        read := if length < bs - shift then length else bs - shift;
        ReadPart(ino, at, out, 0, logical, shift, read, was);
        if length < bs - shift { return Count(ToInt(size)); }
        length := length - read;
        logical := logical + 1;
      }
      var ok := ReadBlocks(ino, at, out, read, logical, length, was);
      ret := if ok then Count(ToInt(size)) else Outside;
    }

    /** The loop over whole blocks, and the part of the last. */
    method ReadBlocks(ino: Inode, ghost at: nat, out: array<byte>, read0: nat, logical0: nat, length0: nat,
                      ghost was: seq<byte>)
      returns (ok: bool)
      requires Valid() && |ino.block| == 15 && out != buffer && read0 + length0 <= out.Length == |was|
      requires at + read0 == disk.blocksize * logical0
      requires disk.blocksize * logical0 + length0 <= disk.blocksize * 0x1_0000_0000
      requires Got(disk, ino, at, read0, was, out[..])
      modifies `current, buffer, out
      ensures Valid() && (ok <==> length0 == 0 || at + read0 + length0 <= Reach(disk))
      ensures ok ==> Got(disk, ino, at, read0 + length0, was, out[..])
    {
      hide Disk.Block, Disk.Valid, TooFar, Got, Reach;
      var bs := disk.blocksize;
      BlockSize(disk);
      var read, length: nat, logical: nat := read0, length0, logical0;
      while length != 0
        invariant Valid() && read + length == read0 + length0 && at + read == bs * logical
        invariant length == length0 || at + read <= Reach(disk)
        invariant bs * logical + length <= bs * 0x1_0000_0000
        invariant Got(disk, ino, at, read, was, out[..])
        decreases length
      {
        BlockInReach(disk, logical, 0);
        LessFactor(logical, 0x1_0000_0000, bs);
        if logical >= TooFar(disk) { return false; }
        var part: nat := if length < bs then length else bs;
        ReadPart(ino, at, out, read, logical, 0, part, was);
        read := read + part;
        if length < bs { return true; }
        length := length - bs;
        logical := logical + 1;
      }
      return true;
    }
  }

  /** What ext2_read_data returns: a 32-bit count as an int, or -1; or nothing that could be
      relied on, after an access outside the block that it has read. */
  datatype Count = Count(n: int) | Outside

  /** Reading n bytes stays inside the block in the buffer: they are all within reach, from
      a place that is not negative, or there are none. */
  predicate Inside(d: Disk, offset: u32, n: nat)
    requires d.Valid()
  {
    if Shift(offset, d.blocksize) < 0 then n == 0 && StartBlock(offset, d.blocksize) < TooFar(d)
    else n == 0 || StartAt(offset, d.blocksize) + n <= Reach(d)
  }

  /** s is what the pointer tree has from position at on. */
  ghost predicate IsTree(d: Disk, ino: Inode, at: nat, s: seq<byte>)
    requires d.Valid() && |ino.block| == 15
  {
    at + |s| <= Reach(d) && s == TreeBytes(d, ino, at, |s|)
  }

  lemma {:induction false} GotIsTree(d: Disk, ino: Inode, at: nat, n: nat, was: seq<byte>, now: seq<byte>)
    requires d.Valid() && |ino.block| == 15 && Got(d, ino, at, n, was, now)
    requires at + n <= d.blocksize * FirstTriple(d) && at <= Reach(d)
    ensures IsTree(d, ino, at, now[..n])
  {
    hide Disk.Valid, FirstTriple, Reach, FileBytes, TreeBytes;
    NothingRead(d, ino, at);
    FileIsTree(d, ino, at, n);
  }

  /** n bytes of the file, from position at on, have been read over what was there. */
  ghost predicate Got(d: Disk, ino: Inode, at: int, n: nat, was: seq<byte>, now: seq<byte>)
    requires d.Valid() && |ino.block| == 15
  {
    && n <= |now| == |was| && now[n..] == was[n..]
    && (n > 0 ==> 0 <= at <= Reach(d) - n && now[..n] == FileBytes(d, ino, at, n))
  }

  lemma {:induction false} NothingGot(d: Disk, ino: Inode, at: int, was: seq<byte>)
    requires d.Valid() && |ino.block| == 15
    ensures Got(d, ino, at, 0, was, was)
  {}

  lemma {:induction false} Starts(d: Disk, offset: u32)
    requires d.Valid()
    ensures offset < 0x8000_0000 ==> Shift(offset, d.blocksize) >= 0 && StartAt(offset, d.blocksize) == offset
    ensures 0x8000_0000 <= offset ==> Shift(offset, d.blocksize) <= 0
    ensures 0x1_0000_0000 <= Reach(d)
  {
    hide Quot, Index, Reach, StartAt;
    SizeInReach(d);
    StartsRightIff(offset, d.blocksize);
    if 0x8000_0000 <= offset { StartsWrong(offset, d.blocksize); }
  }

  /** Where reading starts, the blocks that follow are numbered without overflow. */
  lemma {:induction false} ShiftBound(offset: u32, size: nat, bs: nat)
    requires bs > 1 && offset + size < 0x1_0000_0000
    ensures Shift(offset, bs) < bs
    ensures StartAt(offset, bs) == bs * StartBlock(offset, bs) + Shift(offset, bs)
    ensures bs * (StartBlock(offset, bs) + 1) == bs * StartBlock(offset, bs) + bs
    ensures Shift(offset, bs) >= 0 ==> 0 <= bs * StartBlock(offset, bs) <= StartAt(offset, bs)
    ensures Shift(offset, bs) >= 0 ==> StartAt(offset, bs) + size <= bs * 0x1_0000_0000
  {
    hide Quot, Index;
    StartsRightIff(offset, bs);
    MulMono(1, bs, 0x1_0000_0000);
    if 0x8000_0000 <= offset { StartsWrong(offset, bs); }
  }

  lemma {:induction false} BlockSize(d: Disk)
    requires d.Valid()
    ensures d.blocksize > 1
  {}

  lemma {:induction false} NothingRead(d: Disk, ino: Inode, at: nat)
    requires d.Valid() && |ino.block| == 15 && at <= Reach(d)
    ensures FileBytes(d, ino, at, 0) == []
  {}

  lemma {:induction false} TreeSizes(a: nat)
    ensures Leaves(a, 0) == 1 && Leaves(a, 1) == a && Leaves(a, 2) == a * a && Leaves(a, 3) == a * (a * a)
  {}

  lemma {:induction false} OneLevel(d: Disk, root: u32, depth: nat, l: nat, q: nat, r: nat)
    requires d.Valid() && l < Leaves(d.PerBlock(), depth + 1) && r < Leaves(d.PerBlock(), depth)
    requires l == Leaves(d.PerBlock(), depth) * q + r
    ensures q < d.PerBlock() && Walk(d, root, depth + 1, l) == Walk(d, Word(d.Block(root), q), depth, r)
  {
    hide Disk.Block, Word;
    var n := Leaves(d.PerBlock(), depth);
    DivModUnique(l, n, q, r);
    IndexFits(l, d.PerBlock(), n);
  }
}
