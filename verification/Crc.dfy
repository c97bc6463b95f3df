/** libgzip/crc32.c: the CRC-32 of section 8 of RFC 1952. The definition is a shift
    register that takes one bit at a time; the tables, the four bytes at a time, the
    byte-reversed register and the combination of two checksums all come down to the
    register being linear over exclusive or. */
module Crc {
  import Bits

  const POLY: bv32 := 0xedb88320

  // The machine operations have names, so that proofs can do without their bits.

  function Xor(a: bv32, b: bv32): bv32 { a ^ b }
  function Not(a: bv32): bv32 { !a }
  function Wide(b: bv8): bv32 { b as bv32 }
  function LowByte(c: bv32): bv8 { (c & 0xff) as bv8 }
  function Rest(c: bv32): bv32 { c >> 8 }
  function Half(c: bv32): bv32 { c >> 1 }
  predicate Odd(c: bv32) { c & 1 == 1 }

  lemma {:induction false} XorComm(a: bv32, b: bv32)
    ensures Xor(a, b) == Xor(b, a)
  {}

  lemma {:induction false} XorAssoc(a: bv32, b: bv32, c: bv32)
    ensures Xor(Xor(a, b), c) == Xor(a, Xor(b, c))
  {
    assert (a ^ b) ^ c == a ^ (b ^ c);
  }

  /** Last in, first out. */
  lemma {:induction false} XorSwap(a: bv32, b: bv32, c: bv32)
    ensures Xor(Xor(a, b), c) == Xor(Xor(a, c), b)
  {
    hide Xor;
    XorAssoc(a, b, c);
    XorAssoc(a, c, b);
    XorComm(b, c);
  }

  lemma {:induction false} XorZero(a: bv32)
    ensures Xor(a, 0) == a && Xor(0, a) == a && Xor(a, a) == 0
  {}

  lemma {:induction false} NotNot(a: bv32)
    ensures Not(Not(a)) == a
  {}

  lemma {:induction false} NotXor(a: bv32, b: bv32)
    ensures Not(Xor(a, b)) == Xor(Not(a), b)
  {}

  // ---- The definition ------------------------------------------------------------------

  /** One step of the shift register. */
  function Shift(c: bv32): bv32 {
    if Odd(c) then Xor(POLY, Half(c)) else Half(c)
  }

  /** n steps. */
  function Shifts(c: bv32, n: nat): bv32
    decreases n
  {
    if n == 0 then c else Shifts(Shift(c), n - 1)
  }

  /** The register after a string of bytes, each exclusive-ored in and shifted out. */
  function Register(c: bv32, s: seq<bv8>): bv32
    decreases |s|
  {
    if s == [] then c else Register(Shifts(Xor(c, Wide(s[0])), 8), s[1..])
  }

  /** The CRC of s, going on from that of what comes before. */
  function Checksum(crc: bv32, s: seq<bv8>): bv32 {
    Not(Register(Not(crc), s))
  }

  // ---- Linearity -----------------------------------------------------------------------

  lemma {:induction false} HalfLinear(a: bv32, b: bv32)
    ensures Half(Xor(a, b)) == Xor(Half(a), Half(b))
  {}

  lemma {:induction false} OddLinear(a: bv32, b: bv32)
    ensures Odd(Xor(a, b)) <==> (Odd(a) != Odd(b))
  {}

  lemma {:induction false} PolyTwice(x: bv32, y: bv32)
    ensures Xor(Xor(POLY, x), Xor(POLY, y)) == Xor(x, y)
    ensures Xor(x, Xor(POLY, y)) == Xor(POLY, Xor(x, y)) && Xor(Xor(POLY, x), y) == Xor(POLY, Xor(x, y))
  {
    hide Xor;
    XorAssoc(POLY, x, y);
    XorAssoc(x, POLY, y);
    XorComm(x, POLY);
    XorAssoc(POLY, x, Xor(POLY, y));
    XorAssoc(POLY, POLY, Xor(x, y));
    XorZero(POLY);
    XorZero(Xor(x, y));
  }

  lemma {:induction false} ShiftLinear(a: bv32, b: bv32)
    ensures Shift(Xor(a, b)) == Xor(Shift(a), Shift(b))
  {
    hide Xor, Half, Odd;
    HalfLinear(a, b);
    OddLinear(a, b);
    PolyTwice(Half(a), Half(b));
  }

  lemma {:induction false} ShiftsLinear(a: bv32, b: bv32, n: nat)
    ensures Shifts(Xor(a, b), n) == Xor(Shifts(a, n), Shifts(b, n))
    decreases n
  {
    hide Shift, Xor;
    if n == 0 {
    } else {
      ShiftLinear(a, b);
      ShiftsLinear(Shift(a), Shift(b), n - 1);
    }
  }

  lemma {:induction false} ShiftsAdd(c: bv32, m: nat, n: nat)
    ensures Shifts(Shifts(c, m), n) == Shifts(c, m + n)
    decreases m
  {
    hide Shift;
    if m == 0 {
    } else {
      ShiftsAdd(Shift(c), m - 1, n);
    }
  }

  lemma {:induction false} RegisterAppend(c: bv32, a: seq<bv8>, b: seq<bv8>)
    ensures Register(c, a + b) == Register(Register(c, a), b)
    decreases |a|
  {
    hide Shifts, Xor, Wide;
    if a == [] {
      assert a + b == b;
    } else {
      assert (a + b)[1..] == a[1..] + b;
      RegisterAppend(Shifts(Xor(c, Wide(a[0])), 8), a[1..], b);
    }
  }

  /** The checksum of a concatenation is that of its second part, going on from that of
      its first. */
  lemma {:induction false} ChecksumAppend(crc: bv32, a: seq<bv8>, b: seq<bv8>)
    ensures Checksum(crc, a + b) == Checksum(Checksum(crc, a), b)
  {
    hide Register, Not, Xor;
    RegisterAppend(Not(crc), a, b);
    NotNot(Register(Not(crc), a));
  }

  lemma {:induction false} NoShift(c: bv32)
    ensures Shifts(c, 0) == c
  {
    hide Shift;
  }

  /** A change to the register goes through s as it would through zeros. */
  lemma {:induction false} RegisterLinear(c: bv32, d: bv32, s: seq<bv8>)
    ensures Register(Xor(c, d), s) == Xor(Register(c, s), Shifts(d, 8 * |s|))
    decreases |s|
  {
    hide Shifts, Xor, Wide;
    NoShift(d);
    if s == [] {
    } else {
      var b := Wide(s[0]);
      XorSwap(c, d, b);
      ShiftsLinear(Xor(c, b), d, 8);
      RegisterLinear(Shifts(Xor(c, b), 8), Shifts(d, 8), s[1..]);
      ShiftsAdd(d, 8, 8 * |s[1..]|);
    }
  }

  // ---- A byte at a time ------------------------------------------------------------------

  lemma {:induction false} ShiftEven(y: bv32)
    requires !Odd(y)
    ensures Shift(y) == Half(y)
  {}

  function Move(y: bv32, n: nat): bv32
    decreases n
  {
    if n == 0 then y else Move(Half(y), n - 1)
  }

  predicate Clear(y: bv32, n: nat)
    decreases n
  {
    n == 0 || (!Odd(y) && Clear(Half(y), n - 1))
  }

  /** Shifts of a register whose low bits are clear only move it. */
  lemma {:induction false} ShiftsMove(y: bv32, n: nat)
    requires Clear(y, n)
    ensures Shifts(y, n) == Move(y, n)
    decreases n
  {
    hide Shift, Half, Odd;
    if n == 0 {
    } else {
      ShiftEven(y);
      ShiftsMove(Half(y), n - 1);
    }
  }

  /** The bytes of a register but the lowest. */
  function High(x: bv32): bv32 { x & 0xffffff00 }

  lemma {:induction false} ClearByte(y: bv32)
    requires y & 0xff == 0
    ensures Clear(y, 8) && Move(y, 8) == Rest(y)
  {}

  lemma {:induction false} HighIsClear(x: bv32)
    ensures High(x) & 0xff == 0 && Rest(High(x)) == Rest(x)
  {}

  lemma {:induction false} LowAndHigh(x: bv32)
    ensures x == Xor(Wide(LowByte(x)), High(x))
  {}

  /** The low byte goes through the table, the others move. */
  lemma {:induction false} ByTable(x: bv32)
    ensures Shifts(x, 8) == Xor(Shifts(Wide(LowByte(x)), 8), Rest(x))
  {
    hide Shifts, Xor, Wide, LowByte, High, Rest;
    LowAndHigh(x);
    ShiftsLinear(Wide(LowByte(x)), High(x), 8);
    HighIsClear(x);
    ClearByte(High(x));
    ShiftsMove(High(x), 8);
  }

  // ---- The tables ------------------------------------------------------------------------

  /** REV(w) */
  function Rev(w: bv32): bv32 {
    (w >> 24) + ((w >> 8) & 0xff00) + ((w & 0xff00) << 8) + ((w & 0xff) << 24)
  }

  lemma {:induction false} RevRev(w: bv32)
    ensures Rev(Rev(w)) == w
  {}

  lemma {:induction false} RevLinear(a: bv32, b: bv32)
    ensures Rev(Xor(a, b)) == Xor(Rev(a), Rev(b))
  {}

  lemma {:induction false} RevNot(a: bv32)
    ensures Rev(Not(a)) == Not(Rev(a))
  {
    hide Rev, Not, Xor;
    NotIsXor(a);
    NotIsXor(Rev(a));
    RevLinear(a, 0xffffffff);
    RevOnes();
  }

  lemma {:induction false} NotIsXor(a: bv32)
    ensures Not(a) == Xor(a, 0xffffffff)
  {}

  lemma {:induction false} RevOnes()
    ensures Rev(0xffffffff) == 0xffffffff
  {}

  /** Byte k of a word, counting from the lowest. */
  function ByteAt(c: bv32, k: bv6): bv8
    requires k < 4
  {
    ((c >> (8 * k)) & 0xff) as bv8
  }

  /** The byte that goes in next comes out at the other end of a reversed register. */
  lemma {:induction false} RevRest(c: bv32)
    ensures Rev(c) << 8 == Rev(Rest(c)) && (Rev(c) >> 24) as bv8 == LowByte(c)
  {}

  lemma {:induction false} RevBytes(c: bv32)
    ensures ByteAt(Rev(c), 0) == ByteAt(c, 3) && ByteAt(Rev(c), 1) == ByteAt(c, 2)
    ensures ByteAt(Rev(c), 2) == ByteAt(c, 1) && ByteAt(Rev(c), 3) == ByteAt(c, 0)
  {}

  /** The register for byte b followed by k zero bytes. */
  function Entry(k: nat, b: bv8): bv32 { Shifts(Wide(b), 8 * k + 8) }

  // ---- Four bytes at a time ------------------------------------------------------------

  /** One byte into the register. */
  function Next(c: bv32, b: bv8): bv32 { Shifts(Xor(c, Wide(b)), 8) }

  /** Byte b in place k of a word. */
  function Up(b: bv8, k: bv6): bv32
    requires k < 4
  {
    (b as bv32) << (8 * k)
  }

  /** The word that four bytes make, lowest first. */
  function Word(b0: bv8, b1: bv8, b2: bv8, b3: bv8): bv32 {
    Xor(Xor(Xor(Up(b0, 0), Up(b1, 1)), Up(b2, 2)), Up(b3, 3))
  }

  lemma {:induction false} WordOfBytes(w: bv32)
    ensures w == Word(ByteAt(w, 0), ByteAt(w, 1), ByteAt(w, 2), ByteAt(w, 3))
  {}

  lemma {:induction false} UpOne(b: bv8)
    ensures Up(b, 0) == Wide(b) && Up(b, 1) & 0xff == 0 && Rest(Up(b, 1)) == Up(b, 0)
  {}

  lemma {:induction false} UpTwo(b: bv8)
    ensures Up(b, 2) & 0xff == 0 && Rest(Up(b, 2)) == Up(b, 1)
  {}

  lemma {:induction false} UpThree(b: bv8)
    ensures Up(b, 3) & 0xff == 0 && Rest(Up(b, 3)) == Up(b, 2)
  {}

  /** n shifts bring a byte in place 1, 2 or 3 down, and then work on it. */
  lemma {:induction false} UpShifts(b: bv8, n: nat)
    ensures Shifts(Up(b, 0), n) == Shifts(Wide(b), n) && Shifts(Up(b, 1), n + 8) == Shifts(Wide(b), n)
    ensures Shifts(Up(b, 2), n + 16) == Shifts(Wide(b), n) && Shifts(Up(b, 3), n + 24) == Shifts(Wide(b), n)
  {
    hide Shifts, Up, Wide, Clear, Move, Rest;
    UpOne(b);
    UpTwo(b);
    UpThree(b);
    ClearByte(Up(b, 1));
    ClearByte(Up(b, 2));
    ClearByte(Up(b, 3));
    ShiftsMove(Up(b, 1), 8);
    ShiftsMove(Up(b, 2), 8);
    ShiftsMove(Up(b, 3), 8);
    ShiftsAdd(Up(b, 1), 8, n);
    ShiftsAdd(Up(b, 2), 8, n + 8);
    ShiftsAdd(Up(b, 3), 8, n + 16);
  }

  /** A byte that goes in after n shifts could as well go in before them, moved up. */
  lemma {:induction false} Early(x: bv32, v: bv32, n: nat, b: bv8)
    requires Shifts(v, n) == Wide(b)
    ensures Next(Shifts(x, n), b) == Shifts(Xor(x, v), n + 8)
  {
    hide Shifts, Xor, Wide;
    ShiftsLinear(x, v, n);
    ShiftsAdd(Xor(x, v), n, 8);
  }

  /** Four bytes into the register are a word into it and 32 shifts. */
  lemma {:induction false} FourBytes(c: bv32, b0: bv8, b1: bv8, b2: bv8, b3: bv8)
    ensures Next(Next(Next(Next(c, b0), b1), b2), b3) == Shifts(Xor(c, Word(b0, b1, b2, b3)), 32)
  {
    hide Shifts, Xor, Wide, Up;
    UpShifts(b0, 0);
    UpShifts(b1, 0);
    UpShifts(b2, 0);
    UpShifts(b3, 0);
    NoShift(Wide(b0));
    NoShift(Wide(b1));
    NoShift(Wide(b2));
    NoShift(Wide(b3));
    NoShift(Up(b0, 0));
    NoShift(c);
    var x0, u1, u2, u3 := Xor(c, Up(b0, 0)), Up(b1, 1), Up(b2, 2), Up(b3, 3);
    Early(c, Up(b0, 0), 0, b0);
    Early(x0, u1, 8, b1);
    Early(Xor(x0, u1), u2, 16, b2);
    Early(Xor(Xor(x0, u1), u2), u3, 24, b3);
    XorAssoc(c, Up(b0, 0), u1);
    XorAssoc(c, Xor(Up(b0, 0), u1), u2);
    XorAssoc(c, Xor(Xor(Up(b0, 0), u1), u2), u3);
  }

  /** 32 shifts of a word, by four lookups. */
  function Quad(w: bv32): bv32 {
    Xor(Xor(Xor(Entry(3, ByteAt(w, 0)), Entry(2, ByteAt(w, 1))), Entry(1, ByteAt(w, 2))), Entry(0, ByteAt(w, 3)))
  }

  lemma {:induction false} QuadShifts(w: bv32)
    ensures Quad(w) == Shifts(w, 32)
  {
    hide Shifts, Xor, Wide, Up, ByteAt;
    var b0, b1, b2, b3 := ByteAt(w, 0), ByteAt(w, 1), ByteAt(w, 2), ByteAt(w, 3);
    WordOfBytes(w);
    UpShifts(b0, 32);
    UpShifts(b1, 24);
    UpShifts(b2, 16);
    UpShifts(b3, 8);
    ShiftsLinear(Xor(Xor(Up(b0, 0), Up(b1, 1)), Up(b2, 2)), Up(b3, 3), 32);
    ShiftsLinear(Xor(Up(b0, 0), Up(b1, 1)), Up(b2, 2), 32);
    ShiftsLinear(Up(b0, 0), Up(b1, 1), 32);
  }

  lemma {:induction false} RegisterByte(c: bv32, s: seq<bv8>, i: nat)
    requires i < |s|
    ensures Register(c, s[i..]) == Register(Next(c, s[i]), s[i + 1..])
  {
    hide Shifts, Xor, Wide;
    assert s[i..][1..] == s[i + 1..];
  }

  lemma {:induction false} RegisterWord(c: bv32, s: seq<bv8>, i: nat)
    requires i + 4 <= |s|
    ensures Register(c, s[i..]) == Register(Quad(Xor(c, Word(s[i], s[i + 1], s[i + 2], s[i + 3]))), s[i + 4..])
  {
    hide Register, Next, Quad, Word, Xor;
    var c1 := Next(c, s[i]);
    var c2 := Next(c1, s[i + 1]);
    RegisterByte(c, s, i);
    RegisterByte(c1, s, i + 1);
    RegisterByte(c2, s, i + 2);
    RegisterByte(Next(c2, s[i + 2]), s, i + 3);
    FourBytes(c, s[i], s[i + 1], s[i + 2], s[i + 3]);
    QuadShifts(Xor(c, Word(s[i], s[i + 1], s[i + 2], s[i + 3])));
  }

  lemma {:induction false} LowOnly(c: bv32, b: bv8)
    ensures Rest(Xor(c, Wide(b))) == Rest(c)
    ensures LowByte(Xor(c, Wide(b))) == LowByte(c) ^ b
  {}

  /** One byte by the table. */
  lemma {:induction false} NextByTable(c: bv32, b: bv8)
    ensures Next(c, b) == Xor(Entry(0, LowByte(Xor(c, Wide(b)))), Rest(c))
  {
    hide Shifts, Xor, Wide, Rest, LowByte;
    ByTable(Xor(c, Wide(b)));
    LowOnly(c, b);
  }

  // ---- The same with the register reversed -------------------------------------------------

  /** The word that four bytes make for a machine that has the highest first. */
  function BigWord(b0: bv8, b1: bv8, b2: bv8, b3: bv8): bv32 { Word(b3, b2, b1, b0) }

  lemma {:induction false} BigWordIsRev(b0: bv8, b1: bv8, b2: bv8, b3: bv8)
    ensures BigWord(b0, b1, b2, b3) == Rev(Word(b0, b1, b2, b3))
  {
    hide Rev, Xor, Up;
    RevUp(b0);
    RevUp(b1);
    RevUp(b2);
    RevUp(b3);
    var u0, u1, u2, u3 := Up(b0, 0), Up(b1, 1), Up(b2, 2), Up(b3, 3);
    RevLinear(Xor(Xor(u0, u1), u2), u3);
    RevLinear(Xor(u0, u1), u2);
    RevLinear(u0, u1);
    Backwards(Rev(u0), Rev(u1), Rev(u2), Rev(u3));
  }

  lemma {:induction false} RevUp(b: bv8)
    ensures Rev(Up(b, 0)) == Up(b, 3) && Rev(Up(b, 1)) == Up(b, 2)
    ensures Rev(Up(b, 2)) == Up(b, 1) && Rev(Up(b, 3)) == Up(b, 0)
  {}

  /** Four lookups in the reversed tables. */
  function BigQuad(w: bv32): bv32 {
    Xor(Xor(Xor(Rev(Entry(0, ByteAt(w, 0))), Rev(Entry(1, ByteAt(w, 1)))), Rev(Entry(2, ByteAt(w, 2)))),
        Rev(Entry(3, ByteAt(w, 3))))
  }

  lemma {:induction false} BigQuadIsRev(w: bv32)
    ensures BigQuad(Rev(w)) == Rev(Quad(w))
  {
    hide Rev, Xor, Entry, ByteAt;
    RevBytes(w);
    var e0, e1, e2, e3 := Entry(3, ByteAt(w, 0)), Entry(2, ByteAt(w, 1)), Entry(1, ByteAt(w, 2)),
        Entry(0, ByteAt(w, 3));
    RevLinear(Xor(Xor(e0, e1), e2), e3);
    RevLinear(Xor(e0, e1), e2);
    RevLinear(e0, e1);
    Backwards(Rev(e0), Rev(e1), Rev(e2), Rev(e3));
  }

  lemma {:induction false} Backwards(a: bv32, b: bv32, c: bv32, d: bv32)
    ensures Xor(Xor(Xor(a, b), c), d) == Xor(Xor(Xor(d, c), b), a)
  {
    hide Xor;
    XorComm(a, b);
    XorComm(Xor(b, a), c);
    XorComm(Xor(c, Xor(b, a)), d);
    XorAssoc(c, b, a);
    XorAssoc(d, Xor(c, b), a);
    XorAssoc(d, c, b);
  }

  /** One byte by the reversed table. */
  lemma {:induction false} BigNext(c: bv32, b: bv8)
    ensures Rev(Next(c, b)) == Xor(Rev(Entry(0, ((Rev(c) >> 24) as bv8) ^ b)), Rev(c) << 8)
  {
    hide Rev, Xor, Entry, Rest, Next, LowByte;
    NextByTable(c, b);
    RevLinear(Entry(0, LowByte(Xor(c, Wide(b)))), Rest(c));
    RevRest(c);
    LowOnly(c, b);
  }

  lemma {:induction false} BigRegisterWord(c: bv32, s: seq<bv8>, i: nat)
    requires i + 4 <= |s|
    ensures var d := BigQuad(Xor(Rev(c), BigWord(s[i], s[i + 1], s[i + 2], s[i + 3])));
            Register(c, s[i..]) == Register(Rev(d), s[i + 4..])
  {
    hide Register, Rev, Xor, Quad, BigQuad, Word, BigWord;
    var w := Word(s[i], s[i + 1], s[i + 2], s[i + 3]);
    RegisterWord(c, s, i);
    BigWordIsRev(s[i], s[i + 1], s[i + 2], s[i + 3]);
    RevLinear(c, w);
    BigQuadIsRev(Xor(c, w));
    RevRev(Quad(Xor(c, w)));
  }

  // ---- The residue -------------------------------------------------------------------------

  /** The bytes of a checksum, lowest first. */
  function Bytes(w: bv32): seq<bv8> { [ByteAt(w, 0), ByteAt(w, 1), ByteAt(w, 2), ByteAt(w, 3)] }

  /** A string followed by its own checksum leaves the register at a number that does not
      depend on the string: the residue of CRC-32. */
  lemma {:induction false} Residue(s: seq<bv8>)
    ensures Register(Not(0), s + Bytes(Checksum(0, s))) == 0xdebb20e3
    ensures Checksum(0, s + Bytes(Checksum(0, s))) == 0x2144df1c
  {
    hide Shifts, Xor, Wide, Register, ByteAt;
    var r, w := Register(Not(0), s), Checksum(0, s);
    var b := Bytes(w);
    NotZero();
    RegisterAppend(Not(0), s, b);
    AsSuffix(b);
    RegisterByte(r, b, 0);
    RegisterByte(Next(r, b[0]), b, 1);
    RegisterByte(Next(Next(r, b[0]), b[1]), b, 2);
    RegisterByte(Next(Next(Next(r, b[0]), b[1]), b[2]), b, 3);
    RegisterEnd(Next(Next(Next(Next(r, b[0]), b[1]), b[2]), b[3]), b[4..]);
    FourBytes(r, b[0], b[1], b[2], b[3]);
    WordOfBytes(w);
    OwnInverse(r);
    ResidueOfOnes();
  }

  lemma {:induction false} AsSuffix(b: seq<bv8>)
    ensures b[0..] == b && b[|b|..] == []
  {}

  lemma {:induction false} NotZero()
    ensures Not(0) == 0xffffffff && Not(0xdebb20e3) == 0x2144df1c
  {}

  lemma {:induction false} RegisterEnd(c: bv32, s: seq<bv8>)
    requires s == []
    ensures Register(c, s) == c
  {}

  lemma {:induction false} OwnInverse(r: bv32)
    ensures Xor(r, Not(r)) == 0xffffffff
  {}

  lemma {:induction false} ResidueOfOnes()
    ensures Shifts(0xffffffff, 32) == 0xdebb20e3
  {
    hide Shifts;
    ShiftsAdd(0xffffffff, 8, 24);
    ShiftsAdd(0x2dfd1072, 8, 16);
    ShiftsAdd(0xbe26ed00, 8, 8);
    EightOf(0xffffffff, 0x2dfd1072);
    EightOf(0x2dfd1072, 0xbe26ed00);
    EightOf(0xbe26ed00, 0x00be26ed);
    EightOf(0x00be26ed, 0xdebb20e3);
  }

  lemma {:induction false} EightShifts(c: bv32)
    ensures Shifts(c, 8) == Shift(Shift(Shift(Shift(Shift(Shift(Shift(Shift(c))))))))
  {
    hide Shift;
  }

  lemma {:induction false} EightOf(c: bv32, d: bv32)
    requires Shift(Shift(Shift(Shift(Shift(Shift(Shift(Shift(c)))))))) == d
    ensures Shifts(c, 8) == d
  {
    EightShifts(c);
  }

  // ---- Making the tables ---------------------------------------------------------------

  function Or(a: bv32, b: bv32): bv32 { a | b }

  /** 1UL << (31 - p[n]) */
  function Term(n: nat): bv32
    requires n < 14
  {
    1 << (31 - TERMS[n])
  }

  lemma {:induction false} OrPoly(n: nat)
    requires n < 14
    ensures Or(PARTS[n], Term(n)) == PARTS[n + 1]
  {}

  const TERMS: seq<bv6> := [0, 1, 2, 4, 5, 7, 8, 10, 11, 12, 16, 22, 23, 26]
  const PARTS: seq<bv32> := [0x00000000, 0x80000000, 0xc0000000, 0xe0000000, 0xe8000000, 0xec000000, 0xed000000,
                             0xed800000, 0xeda00000, 0xedb00000, 0xedb80000, 0xedb88000, 0xedb88200, 0xedb88300,
                             0xedb88320]

  /** if (c & 1) c = poly ^ (c >> 1) else c >>= 1 */
  lemma {:induction false} ShiftIs(c: bv32, poly: bv32)
    requires poly == POLY
    ensures Shift(c) == if c & 1 != 0 then poly ^ (c >> 1) else c >> 1
  {
    OddIs(c);
  }

  lemma {:induction false} OddIs(c: bv32)
    ensures Odd(c) <==> c & 1 != 0
  {}

  lemma {:induction false} NextByte(b: bv8)
    requires b as int < 255
    ensures (b + 1) as int == b as int + 1
  {}

  lemma {:induction false} LowIndex(c: bv32)
    ensures (c & 0xff) as int == LowByte(c) as int < 256
  {}

  class CrcTable {
    const crcTable: array2<bv32>
    var empty: bool

    ghost predicate Shape() {
      crcTable.Length0 == 8 && crcTable.Length1 == 256
    }

    ghost predicate FirstRow(n: nat)
      requires Shape()
      reads crcTable
    {
      forall b: bv8 {:trigger Entry(0, b)} :: b as int < n ==> crcTable[0, b as int] == Entry(0, b)
    }

    /** Table k, for k < 4, has the entries for k zero bytes, and table k + 4 has them
        with their bytes reversed. */
    ghost predicate Columns(n: nat)
      requires Shape()
      reads crcTable
    {
      forall k: nat, b: bv8 {:trigger Entry(k, b)} :: k < 4 && b as int < n ==>
        crcTable[k, b as int] == Entry(k, b) && crcTable[k + 4, b as int] == Rev(Entry(k, b))
    }

    ghost predicate Valid()
      reads `empty, crcTable
    {
      Shape() && (!empty ==> Columns(256))
    }

    constructor ()
      ensures Valid() && empty && fresh(crcTable)
    {
      crcTable := new bv32[8, 256];
      empty := true;
    }

    /** The exponents of the polynomial, as a pattern to exclusive-or with. */
    method Polynomial() returns (poly: bv32)
      ensures poly == POLY
    {
      hide Or, Term;
      poly := 0;
      var n := 0;
      while n < 14
        invariant n <= 14 && poly == PARTS[n]
      {
        OrPoly(n);
        poly := Or(poly, Term(n));
        n := n + 1;
      }
    }

    /** The CRC of one byte, shifted out bit by bit. */
    method ByteTable(n: nat, poly: bv32, ghost b0: bv8)
      requires Shape() && n < 256 && b0 as int == n && poly == POLY && FirstRow(n)
      modifies crcTable
      ensures FirstRow(n + 1)
    {
      hide Shift, Odd, Half, Xor, Entry;
      ByteBack(b0);
      var c := Wide(n as bv8);
      var k := 0;
      while k < 8
        invariant k <= 8 && Shifts(c, 8 - k) == Shifts(Wide(b0), 8) && FirstRow(n)
      {
        ShiftIs(c, poly);
        c := if c & 1 != 0 then poly ^ (c >> 1) else c >> 1;
        k := k + 1;
      }
      NoShift(c);
      EntryIs(0, b0);
      crcTable[0, n] := c;
      forall b: bv8 | b as int <= n ensures crcTable[0, b as int] == Entry(0, b) {
        if b as int == n { SameByte(b, b0); }
      }
    }

    /** The CRC of byte n followed by zero bytes, and the reversals. */
    method ZerosTables(n: nat, ghost b0: bv8)
      requires Shape() && n < 256 && b0 as int == n && FirstRow(256) && Columns(n)
      modifies crcTable
      ensures FirstRow(256) && Columns(n + 1)
    {
      hide Shift, Odd, Half, Xor, Shifts, Rev, Wide, Rest, LowByte, Entry;
      assert Entry(0, b0) == crcTable[0, n];
      var c := crcTable[0, n];
      crcTable[4, n] := Rev(c);
      var k := 1;
      while k < 4
        invariant 1 <= k <= 4 && c == Entry(k - 1, b0) && FirstRow(256) && Columns(n) && Column(k, n, b0)
      {
        NextEntry(k - 1, b0);
        LowIndex(c);
        assert Entry(0, LowByte(c)) == crcTable[0, (c & 0xff) as int];
        c := Xor(crcTable[0, (c & 0xff) as int], Rest(c));
        PutColumn(k, n, b0, c);
        k := k + 1;
      }
      forall k: nat, b: bv8 | k < 4 && b as int <= n
        ensures crcTable[k, b as int] == Entry(k, b) && crcTable[k + 4, b as int] == Rev(Entry(k, b)) {
        if b as int == n { SameByte(b, b0); }
      }
    }

    ghost predicate Column(k: nat, n: nat, b0: bv8)
      requires Shape() && n < 256
      reads crcTable
    {
      forall j: nat {:trigger Entry(j, b0)} :: j < k && j < 4 ==>
        crcTable[j, n] == Entry(j, b0) && crcTable[j + 4, n] == Rev(Entry(j, b0))
    }

    method PutColumn(k: nat, n: nat, ghost b0: bv8, c: bv32)
      requires Shape() && 1 <= k < 4 && n < 256 && b0 as int == n && c == Entry(k, b0)
      requires FirstRow(256) && Columns(n) && Column(k, n, b0)
      modifies crcTable
      ensures FirstRow(256) && Columns(n) && Column(k + 1, n, b0)
    {
      hide Rev, Entry;
      PutEntry(k, n, c);
      PutEntry(k + 4, n, Rev(c));
    }

    method PutEntry(k: nat, n: nat, c: bv32)
      requires Shape() && 1 <= k < 8 && n < 256
      modifies crcTable
      ensures crcTable[k, n] == c
      ensures forall j: nat, m: nat :: j < 8 && m < 256 && (j != k || m != n) ==> crcTable[j, m] == old(crcTable[j, m])
    {
      crcTable[k, n] := c;
    }

    /** make_crc_table() */
    method MakeCrcTable()
      requires Shape()
      modifies this, crcTable
      ensures Valid() && !empty
    {
      var poly := Polynomial();
      var n := 0;
      ghost var b: bv8 := 0;
      while n < 256
        invariant n <= 256 && FirstRow(n) && (n < 256 ==> b as int == n)
      {
        ByteTable(n, poly, b);
        n := n + 1;
        if n < 256 { NextByte(b); }
        b := b + 1;
      }
      n, b := 0, 0;
      while n < 256
        invariant n <= 256 && FirstRow(256) && Columns(n) && (n < 256 ==> b as int == n)
      {
        ZerosTables(n, b);
        n := n + 1;
        if n < 256 { NextByte(b); }
        b := b + 1;
      }
      empty := false;
    }

    // ---- crc32() -------------------------------------------------------------------------

    /** A lookup in table k, or in its reversal, for the byte in place j of c. */
    lemma {:induction false} Looked(k: nat, c: bv32, j: bv6)
      requires Shape() && Columns(256) && k < 4 && j < 4
      ensures Index(c, j) < 256 && crcTable[k, Index(c, j)] == Entry(k, ByteAt(c, j))
      ensures crcTable[k + 4, Index(c, j)] == Rev(Entry(k, ByteAt(c, j)))
    {
      hide Entry, Rev, ByteAt, Index;
      IndexIsByte(c, j);
      assert Entry(k, ByteAt(c, j)) == crcTable[k, ByteAt(c, j) as int];
    }

    /** DO1 */
    method Do1(c: bv32, b: bv8) returns (r: bv32)
      requires Shape() && Columns(256)
      ensures r == Next(c, b)
    {
      hide Next, Entry, Rev, LowByte, ByteAt, Index, Xor, Rest, Wide;
      NextByTable(c, b);
      Looked(0, Xor(c, Wide(b)), 0);
      FirstPlace(Xor(c, Wide(b)));
      r := Xor(crcTable[0, Index(Xor(c, Wide(b)), 0)], Rest(c));
    }

    /** DO1 for every byte from i on. */
    method DoBytes(c0: bv32, buf: seq<bv8>, i: nat, n: nat) returns (c: bv32)
      requires Shape() && Columns(256) && i + n <= |buf|
      ensures Register(c, buf[i + n..]) == Register(c0, buf[i..])
    {
      hide Next, Register;
      c := c0;
      var j := i;
      while j < i + n
        invariant i <= j <= i + n && Register(c, buf[j..]) == Register(c0, buf[i..])
      {
        RegisterByte(c, buf, j);
        c := Do1(c, buf[j]);
        j := j + 1;
      }
    }

    /** DO8 */
    method Do8(c0: bv32, buf: seq<bv8>, i: nat) returns (c: bv32)
      requires Shape() && Columns(256) && i + 8 <= |buf|
      ensures Register(c, buf[i + 8..]) == Register(c0, buf[i..])
    {
      c := DoBytes(c0, buf, i, 8);
    }

    /** A byte at a time. */
    method Plain(crc: bv32, buf: seq<bv8>) returns (r: bv32)
      requires Shape() && Columns(256)
      ensures r == Checksum(crc, buf)
    {
      hide Register, Not;
      var c, i := Not(crc), 0;
      assert buf[0..] == buf;
      while |buf| - i >= 8
        invariant i <= |buf| && Register(c, buf[i..]) == Register(Not(crc), buf)
      {
        c := Do8(c, buf, i);
        i := i + 8;
      }
      c := DoBytes(c, buf, i, |buf| - i);
      NoBytes(c, buf);
      r := Not(c);
    }

    /** DOLIT4 */
    method DoLit4(c0: bv32, buf: seq<bv8>, i: nat) returns (c: bv32)
      requires Shape() && Columns(256) && i + 4 <= |buf|
      ensures Register(c, buf[i + 4..]) == Register(c0, buf[i..])
    {
      hide Register, Entry, Rev, ByteAt, Index, Xor, Word;
      RegisterWord(c0, buf, i);
      c := Xor(c0, Word(buf[i], buf[i + 1], buf[i + 2], buf[i + 3]));
      Looked(3, c, 0);
      Looked(2, c, 1);
      Looked(1, c, 2);
      Looked(0, c, 3);
      c := Xor(Xor(Xor(crcTable[3, Index(c, 0)], crcTable[2, Index(c, 1)]), crcTable[1, Index(c, 2)]),
               crcTable[0, Index(c, 3)]);
    }

    /** DOLIT32, and the loop over what DOLIT32 leaves. */
    method DoLits(c0: bv32, buf: seq<bv8>, i: nat, n: nat) returns (c: bv32)
      requires Shape() && Columns(256) && i + 4 * n <= |buf|
      ensures Register(c, buf[i + 4 * n..]) == Register(c0, buf[i..])
    {
      hide Register;
      c := c0;
      var j := 0;
      while j < n
        invariant j <= n && Register(c, buf[i + 4 * j..]) == Register(c0, buf[i..])
      {
        c := DoLit4(c, buf, i + 4 * j);
        j := j + 1;
      }
    }

    /** crc32_little(): whole words from the first aligned address on. */
    method Little(crc: bv32, buf: seq<bv8>, addr: nat) returns (r: bv32)
      requires Shape() && Columns(256)
      ensures r == Checksum(crc, buf)
    {
      hide Register, Not;
      var c, i := Not(crc), 0;
      assert buf[0..] == buf;
      while i < |buf| && (addr + i) % 4 != 0
        invariant i <= |buf| && Register(c, buf[i..]) == Register(Not(crc), buf)
      {
        c := DoBytes(c, buf, i, 1);
        i := i + 1;
      }
      while |buf| - i >= 32
        invariant i <= |buf| && Register(c, buf[i..]) == Register(Not(crc), buf)
      {
        c := DoLits(c, buf, i, 8);
        i := i + 32;
      }
      while |buf| - i >= 4
        invariant i <= |buf| && Register(c, buf[i..]) == Register(Not(crc), buf)
      {
        c := DoLits(c, buf, i, 1);
        i := i + 4;
      }
      c := DoBytes(c, buf, i, |buf| - i);
      NoBytes(c, buf);
      r := Not(c);
    }

    /** One byte into a reversed register. */
    method DoBig1(c: bv32, b: bv8) returns (r: bv32)
      requires Shape() && Columns(256)
      ensures Rev(r) == Next(Rev(c), b)
    {
      hide Next, Entry, Rev, Xor;
      RevRev(c);
      BigNext(Rev(c), b);
      var i := ((c >> 24) as bv8) ^ b;
      TopByte(c);
      assert Entry(0, i) == crcTable[0, i as int];
      r := Xor(crcTable[4, i as int], c << 8);
      RevRev(Next(Rev(c), b));
    }

    method DoBigBytes(c0: bv32, buf: seq<bv8>, i: nat, n: nat) returns (c: bv32)
      requires Shape() && Columns(256) && i + n <= |buf|
      ensures Register(Rev(c), buf[i + n..]) == Register(Rev(c0), buf[i..])
    {
      hide Next, Register, Rev;
      c := c0;
      var j := i;
      while j < i + n
        invariant i <= j <= i + n && Register(Rev(c), buf[j..]) == Register(Rev(c0), buf[i..])
      {
        RegisterByte(Rev(c), buf, j);
        c := DoBig1(c, buf[j]);
        j := j + 1;
      }
    }

    /** DOBIG4 */
    method DoBig4(c0: bv32, buf: seq<bv8>, i: nat) returns (c: bv32)
      requires Shape() && Columns(256) && i + 4 <= |buf|
      ensures Register(Rev(c), buf[i + 4..]) == Register(Rev(c0), buf[i..])
    {
      hide Register, Entry, Rev, ByteAt, Index, Xor, BigWord;
      RevRev(c0);
      BigRegisterWord(Rev(c0), buf, i);
      c := Xor(c0, BigWord(buf[i], buf[i + 1], buf[i + 2], buf[i + 3]));
      Looked(0, c, 0);
      Looked(1, c, 1);
      Looked(2, c, 2);
      Looked(3, c, 3);
      c := Xor(Xor(Xor(crcTable[4, Index(c, 0)], crcTable[5, Index(c, 1)]), crcTable[6, Index(c, 2)]),
               crcTable[7, Index(c, 3)]);
    }

    /** DOBIG32, and the loop over what DOBIG32 leaves. */
    method DoBigs(c0: bv32, buf: seq<bv8>, i: nat, n: nat) returns (c: bv32)
      requires Shape() && Columns(256) && i + 4 * n <= |buf|
      ensures Register(Rev(c), buf[i + 4 * n..]) == Register(Rev(c0), buf[i..])
    {
      hide Register, Rev;
      c := c0;
      var j := 0;
      while j < n
        invariant j <= n && Register(Rev(c), buf[i + 4 * j..]) == Register(Rev(c0), buf[i..])
      {
        c := DoBig4(c, buf, i + 4 * j);
        j := j + 1;
      }
    }

    /** crc32_big(): the same with the register and the words reversed. */
    method Big(crc: bv32, buf: seq<bv8>, addr: nat) returns (r: bv32)
      requires Shape() && Columns(256)
      ensures r == Checksum(crc, buf)
    {
      hide Register, Not, Rev;
      var c, i := Not(Rev(crc)), 0;
      RevNot(Rev(crc));
      RevRev(crc);
      assert buf[0..] == buf;
      while i < |buf| && (addr + i) % 4 != 0
        invariant i <= |buf| && Register(Rev(c), buf[i..]) == Register(Not(crc), buf)
      {
        c := DoBigBytes(c, buf, i, 1);
        i := i + 1;
      }
      while |buf| - i >= 32
        invariant i <= |buf| && Register(Rev(c), buf[i..]) == Register(Not(crc), buf)
      {
        c := DoBigs(c, buf, i, 8);
        i := i + 32;
      }
      while |buf| - i >= 4
        invariant i <= |buf| && Register(Rev(c), buf[i..]) == Register(Not(crc), buf)
      {
        c := DoBigs(c, buf, i, 1);
        i := i + 4;
      }
      c := DoBigBytes(c, buf, i, |buf| - i);
      NoBytes(Rev(c), buf);
      RevNot(c);
      r := Rev(Not(c));
    }

    /** crc32(): whichever way the machine suits, and wherever the buffer is, the result
        is that of the shift register. */
    method Crc32(crc: bv32, buf: Bits.Option<seq<bv8>>, order: Order, addr: nat) returns (r: bv32)
      requires Valid()
      modifies this, crcTable
      ensures Valid() && r == match buf case None => 0 case Some(s) => Checksum(crc, s)
    {
      hide Checksum, Columns;
      if buf.None? { return 0; }
      if empty { MakeCrcTable(); }
      match order
      case Bytes => r := Plain(crc, buf.value);
      case LittleEndian => r := Little(crc, buf.value, addr);
      case BigEndian => r := Big(crc, buf.value, addr);
    }
  }

  /** What the compiler settings and the machine choose: bytes one by one (NOBYFOUR), or
      words in either byte order. */
  datatype Order = Bytes | LittleEndian | BigEndian

  lemma {:induction false} NoBytes(c: bv32, s: seq<bv8>)
    ensures Register(c, s[|s|..]) == c
  {}

  /** (c >> 8 * j) & 0xff, as an index */
  function Index(c: bv32, j: bv6): nat
    requires j < 4
  {
    ((c >> (8 * j)) & 0xff) as int
  }

  lemma {:induction false} IndexIsByte(c: bv32, j: bv6)
    requires j < 4
    ensures Index(c, j) == ByteAt(c, j) as int < 256
  {}

  lemma {:induction false} FirstPlace(c: bv32)
    ensures ByteAt(c, 0) == LowByte(c)
  {}

  lemma {:induction false} TopByte(c: bv32)
    ensures (c >> 24) <= 255
  {}

  lemma {:induction false} EntryIs(k: nat, b: bv8)
    ensures Entry(k, b) == Shifts(Wide(b), 8 * k + 8)
  {}

  /** One zero byte more. */
  lemma {:induction false} NextEntry(k: nat, b: bv8)
    ensures var c := Entry(k, b); Entry(k + 1, b) == Xor(Entry(0, LowByte(c)), Rest(c))
  {
    hide Shifts, Wide, LowByte, Rest, Xor;
    ShiftsAdd(Wide(b), 8 * k + 8, 8);
    ByTable(Entry(k, b));
  }

  lemma {:induction false} ByteBack(b: bv8)
    ensures ((b as int) as bv8) == b
  {}

  lemma {:induction false} SameByte(b: bv8, c: bv8)
    requires b as int == c as int
    ensures b == c
  {
    ByteBack(b);
    ByteBack(c);
  }
}
