/** libgzip/crc32.c: crc32_combine and the matrices over GF(2) that it rests on. A matrix
    is the sequence of its columns, and stands for the operator Times. */
module CrcCombine {
  import opened Crc

  const GF2_DIM: nat := 32

  // ---- Matrices ------------------------------------------------------------------------

  function And(a: bv32, b: bv32): bv32 { a & b }
  function Masked(vec: bv32, row: bv32, col: bv32): bv32 { if And(vec, row) != 0 then col else 0 }
  function Double(row: bv32): bv32 { row << 1 }

  /** The sum of the columns for which vec has a bit, column 0 for the bit of row. */
  function TimesFrom(mat: seq<bv32>, vec: bv32, row: bv32): bv32
    decreases |mat|
  {
    if mat == [] then 0 else Xor(Masked(vec, row, mat[0]), TimesFrom(mat[1..], vec, Double(row)))
  }

  /** Matrix times vector. */
  function Times(mat: seq<bv32>, vec: bv32): bv32 { TimesFrom(mat, vec, 1) }

  /** At most one bit. */
  predicate Single(row: bv32) { row & (row - 1) == 0 }

  lemma {:induction false} SingleMask(x: bv32, row: bv32)
    requires Single(row)
    ensures And(x, row) == 0 || And(x, row) == row
  {}

  lemma {:induction false} AndXor(a: bv32, b: bv32, row: bv32)
    ensures And(Xor(a, b), row) == Xor(And(a, row), And(b, row))
  {}

  lemma {:induction false} MaskedLinear(a: bv32, b: bv32, row: bv32, col: bv32)
    requires Single(row)
    ensures Masked(Xor(a, b), row, col) == Xor(Masked(a, row, col), Masked(b, row, col))
  {
    hide Xor, And, Single;
    AndXor(a, b, row);
    SingleMask(a, row);
    SingleMask(b, row);
    XorZero(row);
    XorZero(col);
    XorZero(0);
  }

  lemma {:induction false} DoubleSingle(row: bv32)
    requires Single(row)
    ensures Single(Double(row))
  {}

  /** Four terms, sorted. */
  lemma {:induction false} XorPairs(a: bv32, b: bv32, c: bv32, d: bv32)
    ensures Xor(Xor(a, b), Xor(c, d)) == Xor(Xor(a, c), Xor(b, d))
  {
    hide Xor;
    XorAssoc(Xor(a, b), c, d);
    XorSwap(a, b, c);
    XorAssoc(Xor(a, c), b, d);
  }

  /** Matrices are linear. */
  lemma {:induction false} TimesLinear(mat: seq<bv32>, a: bv32, b: bv32, row: bv32)
    requires Single(row)
    ensures TimesFrom(mat, Xor(a, b), row) == Xor(TimesFrom(mat, a, row), TimesFrom(mat, b, row))
    decreases |mat|
  {
    hide Masked, Double, Xor, Single;
    if mat == [] {
      XorZero(0);
    } else {
      DoubleSingle(row);
      MaskedLinear(a, b, row, mat[0]);
      TimesLinear(mat[1..], a, b, Double(row));
      XorPairs(Masked(a, row, mat[0]), Masked(b, row, mat[0]), TimesFrom(mat[1..], a, Double(row)),
               TimesFrom(mat[1..], b, Double(row)));
    }
  }

  /** A matrix times each column of another. */
  function Product(mat: seq<bv32>, cols: seq<bv32>): (p: seq<bv32>)
    ensures |p| == |cols|
  {
    if cols == [] then [] else [Times(mat, cols[0])] + Product(mat, cols[1..])
  }

  lemma {:induction false} TimesZero(mat: seq<bv32>, row: bv32)
    ensures TimesFrom(mat, 0, row) == 0
    decreases |mat|
  {
    hide Double, Xor;
    if mat == [] {
    } else {
      TimesZero(mat[1..], Double(row));
      XorZero(0);
      MaskedZero(row, mat[0]);
    }
  }

  lemma {:induction false} MaskedZero(row: bv32, col: bv32)
    ensures Masked(0, row, col) == 0
  {
    assert 0 & row == 0;
  }

  lemma {:induction false} OneIsSingle()
    ensures Single(1)
  {}

  lemma {:induction false} MaskedTimes(mat: seq<bv32>, vec: bv32, row: bv32, col: bv32)
    ensures Masked(vec, row, Times(mat, col)) == Times(mat, Masked(vec, row, col))
  {
    hide TimesFrom;
    TimesZero(mat, 1);
  }

  /** Multiplying the columns composes the operators. */
  lemma {:induction false} ProductComposes(mat: seq<bv32>, cols: seq<bv32>, vec: bv32, row: bv32)
    ensures TimesFrom(Product(mat, cols), vec, row) == Times(mat, TimesFrom(cols, vec, row))
    decreases |cols|
  {
    hide Masked, Double, Xor, Single, Times;
    if cols == [] {
      TimesOfZero(mat);
    } else {
      var p := Product(mat, cols);
      assert p[0] == Times(mat, cols[0]) && p[1..] == Product(mat, cols[1..]);
      ProductComposes(mat, cols[1..], vec, Double(row));
      MaskedTimes(mat, vec, row, cols[0]);
      TimesOfXor(mat, Masked(vec, row, cols[0]), TimesFrom(cols[1..], vec, Double(row)));
    }
  }

  lemma {:induction false} TimesOfZero(mat: seq<bv32>)
    ensures Times(mat, 0) == 0
  {
    TimesZero(mat, 1);
  }

  lemma {:induction false} TimesOfXor(mat: seq<bv32>, a: bv32, b: bv32)
    ensures Times(mat, Xor(a, b)) == Xor(Times(mat, a), Times(mat, b))
  {
    hide TimesFrom, Xor, Single;
    OneIsSingle();
    TimesLinear(mat, a, b, 1);
  }

  // ---- Operators that shift ----------------------------------------------------------------

  /** mat is the operator for n zero bits. */
  ghost predicate ShiftsBy(mat: seq<bv32>, n: nat) {
    |mat| == GF2_DIM && forall c: bv32 :: Times(mat, c) == Shifts(c, n)
  }

  /** Squaring an operator doubles its zeros. */
  lemma {:induction false} SquareDoubles(mat: seq<bv32>, n: nat)
    requires ShiftsBy(mat, n)
    ensures ShiftsBy(Product(mat, mat), 2 * n)
  {
    hide TimesFrom, Shifts;
    var p := Product(mat, mat);
    forall c: bv32 ensures Times(p, c) == Shifts(c, 2 * n) {
      ProductComposes(mat, mat, c, 1);
      ShiftsAdd(c, n, n);
      assert Times(mat, c) == Shifts(c, n);
    }
  }

  /** n columns with one bit each, from row up. */
  function Diagonal(row: bv32, n: nat): (d: seq<bv32>)
    ensures |d| == n
    decreases n
  {
    if n == 0 then [] else [row] + Diagonal(Double(row), n - 1)
  }

  /** The operator for one zero bit. */
  function OneBit(): seq<bv32> { [POLY] + Diagonal(1, 31) }

  /** The bits of vec from that of row up. */
  function From(vec: bv32, row: bv32): bv32 { vec & !(row - 1) }

  /** row shifted left n times. */
  function Doubled(row: bv32, n: nat): bv32
    decreases n
  {
    if n == 0 then row else Doubled(Double(row), n - 1)
  }

  lemma {:induction false} FromStep(vec: bv32, row: bv32)
    requires Single(row) && row != 0
    ensures Xor(Masked(vec, Double(row), row), Half(From(vec, Double(Double(row))))) == Half(From(vec, Double(row)))
  {}

  /** The columns below the first move every bit but the lowest down. */
  lemma {:induction false} DiagonalHalves(vec: bv32, row: bv32, n: nat)
    requires Single(row) && Doubled(Double(row), n) == 0
    ensures TimesFrom(Diagonal(row, n), vec, Double(row)) == Half(From(vec, Double(row)))
    decreases n
  {
    hide Masked, Double, Xor, Single, From, Half;
    if n == 0 {
      FromNothing(vec);
    } else {
      DoubleSingle(row);
      DiagonalHalves(vec, Double(row), n - 1);
      if row == 0 { NoRow(vec); } else { FromStep(vec, row); }
    }
  }

  lemma {:induction false} NoRow(vec: bv32)
    ensures Double(0) == 0 && Masked(vec, 0, 0) == 0
    ensures Xor(0, Half(From(vec, 0))) == Half(From(vec, 0))
  {}

  lemma {:induction false} FromNothing(vec: bv32)
    ensures Half(From(vec, 0)) == 0
  {}

  lemma {:induction false} DoubledOut()
    ensures Doubled(Double(1), 31) == 0 && Single(1)
  {
    DoubledEight(2, 23);
    DoubledEight(0x200, 15);
    DoubledEight(0x20000, 7);
  }

  lemma {:induction false} DoubledEight(row: bv32, n: nat)
    ensures Doubled(row, n + 8) == Doubled(row << 8, n)
  {
    hide Double;
    DoubledAdd(row, 8, n);
    EightTimes(row);
  }

  lemma {:induction false} DoubledAdd(row: bv32, m: nat, n: nat)
    ensures Doubled(row, m + n) == Doubled(Doubled(row, m), n)
    decreases m
  {
    hide Double;
    if m == 0 {
    } else {
      DoubledAdd(Double(row), m - 1, n);
    }
  }

  lemma {:induction false} EightTimes(row: bv32)
    ensures Doubled(row, 8) == row << 8
  {}

  lemma {:induction false} FromTwo(c: bv32)
    ensures Half(From(c, Double(1))) == Half(c) && (And(c, 1) != 0 <==> Odd(c)) && Double(1) == 2
  {}

  /** The operator for one zero bit is one step of the register. */
  lemma {:induction false} OneBitShifts()
    ensures ShiftsBy(OneBit(), 1)
  {
    hide Doubled, Single, From, Half, Odd, Xor, Double, And;
    forall c: bv32 ensures Times(OneBit(), c) == Shifts(c, 1) {
      DoubledOut();
      assert OneBit()[1..] == Diagonal(1, 31);
      DiagonalHalves(c, 1, 31);
      FromTwo(c);
      XorZero(Half(c));
      NoShift(Shift(c));
    }
  }

  // ---- The methods ---------------------------------------------------------------------------

  /** v has at most n bits. */
  predicate Fits(v: bv32, n: nat)
    decreases n
  {
    v == 0 || (n > 0 && Fits(Half(v), n - 1))
  }

  /** The n lowest bits. */
  function Ones(n: nat): bv32
    decreases n
  {
    if n == 0 then 0 else Or(Double(Ones(n - 1)), 1)
  }

  lemma {:induction false} HalfFits(v: bv32, m: bv32)
    requires And(v, Not(Or(Double(m), 1))) == 0
    ensures And(Half(v), Not(m)) == 0
  {}

  lemma {:induction false} OnesFit(v: bv32, n: nat)
    requires And(v, Not(Ones(n))) == 0
    ensures Fits(v, n)
    decreases n
  {
    hide And, Not, Or, Double, Half;
    if n == 0 {
      NotNothing(v);
    } else {
      HalfFits(v, Ones(n - 1));
      OnesFit(Half(v), n - 1);
    }
  }

  lemma {:induction false} NotNothing(v: bv32)
    ensures And(v, Not(0)) == v && And(v, Not(0xffffffff)) == 0
  {}

  /** m with k ones pushed in from below. */
  function Pushed(m: bv32, k: nat): bv32
    decreases k
  {
    if k == 0 then m else Or(Double(Pushed(m, k - 1)), 1)
  }

  lemma {:induction false} OnesPushed(n: nat, k: nat)
    ensures Ones(n + k) == Pushed(Ones(n), k)
    decreases k
  {
    hide Or, Double;
    if k == 0 {
    } else {
      OnesPushed(n, k - 1);
    }
  }

  lemma {:induction false} PushedEight(m: bv32)
    ensures Pushed(m, 8) == (m << 8) | 0xff
  {}

  lemma {:induction false} OnesEight(n: nat, m: bv32)
    requires Ones(n) == m
    ensures Ones(n + 8) == (m << 8) | 0xff
  {
    hide Ones, Pushed;
    OnesPushed(n, 8);
    PushedEight(m);
  }

  lemma {:induction false} WordFits(v: bv32)
    ensures Fits(v, 32)
  {
    OnesEight(0, 0);
    OnesEight(8, 0xff);
    OnesEight(16, 0xffff);
    OnesEight(24, 0xffffff);
    NotNothing(v);
    OnesFit(v, 32);
  }

  lemma {:induction false} MaskedShift(vec: bv32, row: bv32, col: bv32)
    ensures Masked(vec, Double(row), col) == Masked(Half(vec), row, col)
  {
    hide And, Double, Half;
    AndShift(vec, row);
  }

  lemma {:induction false} AndShift(vec: bv32, row: bv32)
    ensures And(vec, Double(row)) == 0 <==> And(Half(vec), row) == 0
  {
    assert (vec & (row << 1)) & 1 == 0;
    assert (vec >> 1) & row == (vec & (row << 1)) >> 1;
  }

  /** Testing the next bit is the same as shifting it down. */
  lemma {:induction false} TimesShift(mat: seq<bv32>, vec: bv32, row: bv32)
    ensures TimesFrom(mat, vec, Double(row)) == TimesFrom(mat, Half(vec), row)
    decreases |mat|
  {
    hide Masked, Double, Half, Xor;
    if mat == [] {
    } else {
      MaskedShift(vec, row, mat[0]);
      TimesShift(mat[1..], vec, Double(row));
    }
  }

  lemma {:induction false} TimesStep(mat: seq<bv32>, i: nat, vec: bv32)
    requires i < |mat|
    ensures Times(mat[i..], vec) == Xor(if Odd(vec) then mat[i] else 0, Times(mat[i + 1..], Half(vec)))
  {
    hide Double, Half, Xor, And, Odd;
    assert mat[i..][1..] == mat[i + 1..];
    TimesShift(mat[i + 1..], vec, 1);
    FromTwo(vec);
  }

  /** gf2_matrix_times */
  method Gf2MatrixTimes(mat: array<bv32>, vector: bv32) returns (sum: bv32)
    requires mat.Length == GF2_DIM
    ensures sum == Times(mat[..], vector)
  {
    hide Times, Half, Xor, Odd, Fits;
    sum := 0;
    var vec, i := vector, 0;
    WordFits(vec);
    assert mat[0..] == mat[..];
    XorZero(Times(mat[..], vec));
    while vec != 0
      invariant i <= GF2_DIM && Fits(vec, GF2_DIM - i)
      invariant Xor(sum, Times(mat[i..], vec)) == Times(mat[..], vector)
      decreases GF2_DIM - i
    {
      FitsOne(vec, GF2_DIM - i);
      TimesStep(mat[..], i, vec);
      assert mat[..][i..] == mat[i..] && mat[..][i + 1..] == mat[i + 1..];
      XorAssoc(sum, if Odd(vec) then mat[i] else 0, Times(mat[i + 1..], Half(vec)));
      XorZero(sum);
      if Odd(vec) { sum := Xor(sum, mat[i]); }
      vec := Half(vec);
      i := i + 1;
    }
    TimesOfZero(mat[i..]);
    XorZero(sum);
  }

  lemma {:induction false} FitsOne(v: bv32, n: nat)
    requires Fits(v, n) && v != 0
    ensures n > 0 && Fits(Half(v), n - 1)
  {}

  lemma {:induction false} ProductAt(mat: seq<bv32>, cols: seq<bv32>, i: nat)
    requires i < |cols|
    ensures Product(mat, cols)[i] == Times(mat, cols[i])
    decreases i
  {
    hide Times;
    if i == 0 {
    } else {
      ProductAt(mat, cols[1..], i - 1);
    }
  }

  /** gf2_matrix_square */
  method Gf2MatrixSquare(square: array<bv32>, mat: array<bv32>, ghost n: nat)
    requires square.Length == mat.Length == GF2_DIM && square != mat && ShiftsBy(mat[..], n)
    modifies square
    ensures square[..] == Product(mat[..], mat[..]) && ShiftsBy(square[..], 2 * n)
  {
    hide Times, ShiftsBy, Product;
    var i := 0;
    while i < GF2_DIM
      invariant i <= GF2_DIM
      invariant forall j :: 0 <= j < i ==> square[j] == Times(mat[..], mat[j])
    {
      square[i] := Gf2MatrixTimes(mat, mat[i]);
      i := i + 1;
    }
    ghost var p := Product(mat[..], mat[..]);
    forall j | 0 <= j < GF2_DIM ensures square[..][j] == p[j] { ProductAt(mat[..], mat[..], j); }
    assert square[..] == p;
    SquareDoubles(mat[..], n);
  }

  /** n times q */
  function Mul(q: nat, n: nat): nat { if n == 0 then 0 else q + Mul(q, n - 1) }

  lemma {:induction false} MulHalf(q: nat, n: nat)
    ensures Mul(q, n) == Mul(2 * q, n / 2) + if n % 2 == 1 then q else 0
    decreases n
  {
    if n >= 2 {
      MulHalf(q, n - 2);
      assert Mul(q, n) == 2 * q + Mul(q, n - 2);
    }
  }

  lemma {:induction false} MulEight(n: nat)
    ensures Mul(8, n) == 8 * n
    decreases n
  {
    if n == 0 {
    } else {
      MulEight(n - 1);
    }
  }

  lemma {:induction false} DiagonalStep(row: bv32, n: nat)
    requires n > 0
    ensures Diagonal(row, n) == [row] + Diagonal(Double(row), n - 1)
  {}

  lemma {:induction false} DiagonalEnd(row: bv32)
    ensures Diagonal(row, 0) == []
  {}

  /** The columns with one bit each. */
  method FillDiagonal(odd: array<bv32>)
    requires odd.Length == GF2_DIM
    modifies odd
    ensures odd[1..] == Diagonal(1, 31) && odd[0] == old(odd[0])
  {
    hide Double, Diagonal;
    var row: bv32, n: nat := 1, 1;
    ghost var d := Diagonal(1, 31);
    while n < GF2_DIM
      invariant 1 <= n <= GF2_DIM && odd[0] == old(odd[0])
      invariant odd[1..n] + Diagonal(row, GF2_DIM - n) == d
    {
      DiagonalStep(row, GF2_DIM - n);
      PutRow(odd, n, row);
      row := Double(row);
      n := n + 1;
    }
    DiagonalEnd(row);
  }

  method PutRow(odd: array<bv32>, n: nat, row: bv32)
    requires 1 <= n < odd.Length
    modifies odd
    ensures odd[1..n + 1] == old(odd[1..n]) + [row] && odd[0] == old(odd[0])
  {
    odd[n] := row;
  }

  /** The operator for one zero bit. */
  method OneZeroBit(odd: array<bv32>)
    requires odd.Length == GF2_DIM
    modifies odd
    ensures ShiftsBy(odd[..], 1)
  {
    hide ShiftsBy, Diagonal;
    odd[0] := POLY;
    FillDiagonal(odd);
    assert odd[..] == [odd[0]] + odd[1..];
    OneBitShifts();
  }

  /** Apply the operator mat for q zeros if the lowest bit of len is set. */
  method ApplyZeros(mat: array<bv32>, c: bv32, len: nat, ghost q: nat) returns (r: bv32)
    requires mat.Length == GF2_DIM && ShiftsBy(mat[..], q) && len > 0
    ensures Shifts(r, Mul(2 * q, len / 2)) == Shifts(c, Mul(q, len))
  {
    hide Times, Shifts, Mul;
    r := c;
    MulHalf(q, len);
    if len % 2 == 1 {
      r := Gf2MatrixTimes(mat, c);
      ShiftsAdd(c, q, Mul(2 * q, len / 2));
    }
  }

  /** crc32_combine: as many zero bytes as crc2 is for go through crc1. For checksums of
      two strings, that makes the checksum of their concatenation. */
  method Crc32Combine(crc1: bv32, crc2: bv32, len2: nat) returns (r: bv32)
    ensures r == if len2 == 0 then crc1 else Xor(Shifts(crc1, 8 * len2), crc2)
    ensures forall a: seq<bv8>, b: seq<bv8> :: crc1 == Checksum(0, a) && crc2 == Checksum(0, b) && |b| == len2 ==>
              r == Checksum(0, a + b)
  {
    r := ThroughZeros(crc1, crc2, len2);
    forall a: seq<bv8>, b: seq<bv8> | crc1 == Checksum(0, a) && crc2 == Checksum(0, b) && |b| == len2
      ensures r == Checksum(0, a + b) {
      hide Shifts, Xor, Checksum;
      CombinedIsChecksum(a, b);
    }
  }

  method ThroughZeros(crc1: bv32, crc2: bv32, len2: nat) returns (r: bv32)
    ensures r == if len2 == 0 then crc1 else Xor(Shifts(crc1, 8 * len2), crc2)
  {
    hide ShiftsBy, Shifts, Mul, Xor, Product;
    if len2 == 0 { return crc1; }
    var even, odd := new bv32[GF2_DIM], new bv32[GF2_DIM];
    OneZeroBit(odd);
    Gf2MatrixSquare(even, odd, 1);
    Gf2MatrixSquare(odd, even, 2);
    var crc, len := crc1, len2;
    ghost var q: nat := 4;
    MulEight(len2);
    while true
      invariant len > 0 && ShiftsBy(odd[..], q) && Shifts(crc, Mul(2 * q, len)) == Shifts(crc1, 8 * len2)
      decreases len
    {
      Gf2MatrixSquare(even, odd, q);
      crc := ApplyZeros(even, crc, len, 2 * q);
      len := len / 2;
      if len == 0 { break; }
      Gf2MatrixSquare(odd, even, 2 * q);
      crc := ApplyZeros(odd, crc, len, 4 * q);
      len := len / 2;
      q := 4 * q;
      if len == 0 { break; }
    }
    NothingLeft(crc, 2 * q);
    NothingLeft(crc, 4 * q);
    r := Xor(crc, crc2);
  }

  lemma {:induction false} NothingLeft(c: bv32, q: nat)
    ensures Shifts(c, Mul(q, 0)) == c
  {
    NoShift(c);
  }

  /** Combining the checksums of two strings gives that of their concatenation. */
  lemma {:induction false} CombinedIsChecksum(a: seq<bv8>, b: seq<bv8>)
    ensures Checksum(0, a + b) ==
            if |b| == 0 then Checksum(0, a) else Xor(Shifts(Checksum(0, a), 8 * |b|), Checksum(0, b))
  {
    hide Register, Shifts, Xor, Not;
    if b == [] {
      assert a + b == a;
    } else {
      var ones, c := Not(0), Checksum(0, a);
      RegisterAppend(ones, a, b);
      OnesXor(Register(ones, a));
      RegisterLinear(ones, c, b);
      NotXor(Register(ones, b), Shifts(c, 8 * |b|));
      XorComm(Not(Register(ones, b)), Shifts(c, 8 * |b|));
    }
  }

  lemma {:induction false} OnesXor(x: bv32)
    ensures Xor(Not(0), Not(x)) == x
  {}
}
