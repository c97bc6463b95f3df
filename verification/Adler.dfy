/** libgzip/adler32.c: the Adler-32 checksum of section 2.2 of RFC 1950. The definition
    reduces after every byte; the code puts the reduction off for as long as 32 bits
    allow, and reduces by subtracting. Every value of type u32 is checked to fit. */
module Adler {
  import opened Bits

  const BASE: nat := 65521
  const NMAX: nat := 5552

  // ---- The definition --------------------------------------------------------------------

  datatype Sums = Sums(a: nat, b: nat)

  /** One byte. */
  function Step(s: Sums, x: byte): Sums {
    var a := (s.a + x) % BASE;
    Sums(a, (s.b + a) % BASE)
  }

  function Sum(s: Sums, buf: seq<byte>): Sums
    decreases |buf|
  {
    if buf == [] then s else Sum(Step(s, buf[0]), buf[1..])
  }

  /** The two halves of a checksum. */
  function Halves(v: nat): Sums { Sums(v % 65536, v / 65536 % 65536) }

  /** The same remainders. */
  predicate Same(s: Sums, t: Sums) { s.a % BASE == t.a % BASE && s.b % BASE == t.b % BASE }

  predicate Reduced(s: Sums) { s.a < BASE && s.b < BASE }

  // ---- Without reduction -------------------------------------------------------------------

  /** The sums without any reduction. */
  function Raw(s: Sums, buf: seq<byte>): Sums
    decreases |buf|
  {
    if buf == [] then s else Raw(Sums(s.a + buf[0], s.b + s.a + buf[0]), buf[1..])
  }

  /** Reducing on the way changes nothing but the multiples of BASE. */
  lemma {:induction false} RawIsSum(s: Sums, t: Sums, buf: seq<byte>)
    requires Same(s, t)
    ensures Same(Raw(s, buf), Sum(t, buf))
    decreases |buf|
  {
    if buf == [] {
    } else {
      SameStep(s, t, buf[0]);
      RawIsSum(Sums(s.a + buf[0], s.b + s.a + buf[0]), Step(t, buf[0]), buf[1..]);
    }
  }

  lemma {:induction false} ModAdd(x: nat, y: nat, z: nat)
    requires x % BASE == y % BASE
    ensures (x + z) % BASE == (y + z) % BASE
  {}

  lemma {:induction false} SameStep(s: Sums, t: Sums, x: byte)
    requires Same(s, t)
    ensures Same(Sums(s.a + x, s.b + s.a + x), Step(t, x))
  {
    var a := (t.a + x) % BASE;
    ModAdd(s.a, t.a, x);
    ModAdd(s.b, t.b, s.a + x);
    ModAdd(s.a + x, a, t.b);
  }

  lemma {:induction false} SumReduced(s: Sums, buf: seq<byte>)
    requires Reduced(s) || buf != []
    ensures Reduced(Sum(s, buf))
    decreases |buf|
  {
    if buf == [] {
    } else {
      SumReduced(Step(s, buf[0]), buf[1..]);
    }
  }

  lemma {:induction false} SumAppend(s: Sums, x: seq<byte>, y: seq<byte>)
    ensures Sum(s, x + y) == Sum(Sum(s, x), y)
    decreases |x|
  {
    if x == [] {
      assert x + y == y;
    } else {
      assert (x + y)[1..] == x[1..] + y;
      SumAppend(Step(s, x[0]), x[1..], y);
    }
  }

  // ---- What the sums are -----------------------------------------------------------------

  function Bytes(buf: seq<byte>): nat
    decreases |buf|
  {
    if buf == [] then 0 else buf[0] + Bytes(buf[1..])
  }

  /** Each byte as often as there are bytes from it on. */
  function Weighted(buf: seq<byte>): nat
    decreases |buf|
  {
    if buf == [] then 0 else |buf| * buf[0] + Weighted(buf[1..])
  }

  lemma {:induction false} RawIs(s: Sums, buf: seq<byte>)
    ensures Raw(s, buf) == Sums(s.a + Bytes(buf), s.b + |buf| * s.a + Weighted(buf))
    decreases |buf|
  {
    if buf == [] {
    } else {
      var n, x := |buf|, buf[0];
      RawIs(Sums(s.a + x, s.b + s.a + x), buf[1..]);
      assert (n - 1) * (s.a + x) == n * s.a - s.a + n * x - x;
    }
  }

  /** The checksum of a string, without a loop: 1 and the sum of its bytes, and the sum of
      all the first sums on the way, modulo 65521, in the halves of 32 bits; 1 for none. */
  lemma {:induction false} SumIs(buf: seq<byte>)
    ensures Halves(1) == Sums(1, 0)
    ensures Sum(Halves(1), buf) == Sums((1 + Bytes(buf)) % 65521, (|buf| + Weighted(buf)) % 65521)
  {
    hide Sum, Raw;
    var one := Sums(1, 0);
    RawIs(one, buf);
    RawIsSum(one, one, buf);
    SumReduced(one, buf);
  }

  /** The most that the raw sums can be after n bytes, from halves of 16 bits. */
  function MostA(n: nat): nat { 65535 + 255 * n }
  function MostB(n: nat): nat { if n == 0 then 65535 else MostB(n - 1) + MostA(n) }

  lemma {:induction false} MostIs(n: nat)
    ensures 2 * MostB(n) == 2 * 65535 * (n + 1) + 255 * n * (n + 1)
    decreases n
  {
    if n == 0 {
    } else {
      MostIs(n - 1);
      assert 255 * n * (n + 1) == 255 * (n - 1) * n + 2 * (255 * n);
    }
  }

  lemma {:induction false} MostGrows(m: nat, n: nat)
    requires m <= n
    ensures MostA(m) <= MostA(n) && MostB(m) <= MostB(n)
    decreases n - m
  {
    if m >= n {
    } else {
      MostGrows(m + 1, n);
    }
  }

  /** NMAX bytes fit into 32 bits, even from halves that are not reduced. */
  lemma {:induction false} NmaxFits(n: nat)
    requires n <= NMAX
    ensures MostA(n) < 0x1_0000_0000 && MostB(n) < 0x1_0000_0000
  {
    MostIs(NMAX);
    MostGrows(n, NMAX);
  }

  /** n bytes of 255, and what they make of the largest reduced halves. */
  function Largest(n: nat): (s: seq<byte>)
    ensures |s| == n
  {
    if n == 0 then [] else [255] + Largest(n - 1)
  }

  const TOP: Sums := Sums(BASE - 1, BASE - 1)

  /** Larger halves and bytes make larger sums. */
  lemma {:induction false} RawGrows(s: Sums, t: Sums, buf: seq<byte>)
    requires s.a <= t.a && s.b <= t.b
    ensures Raw(s, buf).a <= Raw(t, Largest(|buf|)).a && Raw(s, buf).b <= Raw(t, Largest(|buf|)).b
    decreases |buf|
  {
    if buf == [] {
    } else {
      assert Largest(|buf|)[1..] == Largest(|buf| - 1);
      RawGrows(Sums(s.a + buf[0], s.b + s.a + buf[0]), Sums(t.a + 255, t.b + t.a + 255), buf[1..]);
    }
  }

  lemma {:induction false} RawOfLargest(s: Sums, n: nat)
    ensures Raw(s, Largest(n)).a == s.a + 255 * n
    ensures 2 * Raw(s, Largest(n)).b == 2 * s.b + 2 * n * s.a + 255 * n * (n + 1)
    decreases n
  {
    if n == 0 {
    } else {
      assert Largest(n)[1..] == Largest(n - 1);
      RawOfLargest(Sums(s.a + 255, s.b + s.a + 255), n - 1);
      MoreBytes(n, s.a);
    }
  }

  lemma {:induction false} MoreBytes(n: nat, a: nat)
    requires n > 0
    ensures 2 * (a + 255) + 2 * (n - 1) * (a + 255) + 255 * (n - 1) * n == 2 * n * a + 255 * n * (n + 1)
  {}

  /** The second sum that the largest bytes make of the largest reduced halves. */
  function Worst(n: nat): nat { 255 * n * (n + 1) / 2 + (n + 1) * (BASE - 1) }

  lemma {:induction false} WorstIs(n: nat)
    ensures Raw(TOP, Largest(n)).b == Worst(n)
  {
    RawOfLargest(TOP, n);
  }

  lemma {:induction false} WorstGrows(n: nat)
    ensures Worst(n + 1) == Worst(n) + 255 * (n + 1) + BASE - 1
  {
    assert 255 * (n + 1) * (n + 2) == 255 * n * (n + 1) + 2 * (255 * (n + 1));
  }

  lemma {:induction false} WorstFits(n: nat)
    ensures Worst(n) < 0x1_0000_0000 <==> n <= NMAX
    decreases if n <= NMAX then NMAX - n else n
  {
    hide Worst;
    if n < NMAX {
      WorstGrows(n);
      WorstFits(n + 1);
    } else {
      AtNmax();
      if n > NMAX + 1 {
        WorstGrows(n - 1);
        WorstFits(n - 1);
      }
    }
  }

  lemma {:induction false} AtNmax()
    ensures Worst(NMAX) < 0x1_0000_0000 <= Worst(NMAX + 1)
  {}

  /** NMAX is the largest number of bytes that cannot make the sums overflow 32 bits, from
      whatever reduced halves. */
  lemma {:induction false} NmaxIsLargest(n: nat)
    ensures n <= NMAX <==>
            forall s: Sums, buf: seq<byte> :: Reduced(s) && |buf| == n ==>
              Raw(s, buf).a < 0x1_0000_0000 && Raw(s, buf).b < 0x1_0000_0000
  {
    hide Raw, Worst;
    WorstIs(n);
    WorstFits(n);
    RawOfLargest(TOP, n);
    if n <= NMAX {
      forall s: Sums, buf: seq<byte> | Reduced(s) && |buf| == n
        ensures Raw(s, buf).a < 0x1_0000_0000 && Raw(s, buf).b < 0x1_0000_0000 {
        RawGrows(s, TOP, buf);
      }
    } else {
      assert Reduced(TOP) && |Largest(n)| == n;
    }
  }

  // ---- Reducing by subtraction ---------------------------------------------------------------

  /** if (a >= (BASE << k)) a -= (BASE << k) */
  method Subtract(a: u32, k: nat) returns (r: u32)
    requires a < 2 * Shl(BASE, k)
    ensures r < Shl(BASE, k) && r % BASE == a % BASE && r <= a
  {
    r := a;
    if r >= Shl(BASE, k) {
      Multiple(r - Shl(BASE, k), k);
      r := r - Shl(BASE, k);
    }
  }

  lemma {:induction false} Multiple(x: nat, k: nat)
    ensures (x + Shl(BASE, k)) % BASE == x % BASE
    decreases k
  {
    if k == 0 {
    } else {
      Multiple(x, k - 1);
      Multiple(x + Shl(BASE, k - 1), k - 1);
    }
  }

  /** MOD(a) where the hardware does not divide. */
  method Mod(a: u32) returns (r: u32)
    ensures r == a % BASE
  {
    hide Shl;
    Halvings();
    r := Subtract(a, 16);
    r := Subtract(r, 15);
    r := Subtract(r, 14);
    r := Subtract(r, 13);
    r := Subtract(r, 12);
    r := Subtract(r, 11);
    r := Subtract(r, 10);
    r := Subtract(r, 9);
    r := Subtract(r, 8);
    r := Subtract(r, 7);
    r := Subtract(r, 6);
    r := Subtract(r, 5);
    r := Mod4(r);
  }

  /** MOD4(a) */
  method Mod4(a: u32) returns (r: u32)
    requires a < 2 * Shl(BASE, 4)
    ensures r == a % BASE
  {
    hide Shl;
    Halvings();
    r := Subtract(a, 4);
    r := Subtract(r, 3);
    r := Subtract(r, 2);
    r := Subtract(r, 1);
    r := Subtract(r, 0);
  }

  lemma {:induction false} Halvings()
    ensures Shl(BASE, 0) == BASE && Shl(BASE, 4) == 1048336 && 0x1_0000_0000 <= 2 * Shl(BASE, 16)
    ensures forall k: nat :: k < 16 ==> Shl(BASE, k + 1) == 2 * Shl(BASE, k)
  {
    assert Shl(BASE, 8) == 16773376;
  }

  // ---- adler32() -----------------------------------------------------------------------------

  /** The sums as they stand after k bytes without reduction. */
  predicate Within(a: nat, b: nat, k: nat) { a <= MostA(k) && b <= MostB(k) }

  /** DO1: one byte, from what is left of the buffer. */
  method Do1(adler: u32, sum2: u32, buf: seq<byte>, i: nat, ghost k: nat) returns (a: u32, b: u32)
    requires i < |buf| && k < NMAX && Within(adler, sum2, k)
    ensures Within(a, b, k + 1) && Raw(Sums(a, b), buf[i + 1..]) == Raw(Sums(adler, sum2), buf[i..])
  {
    NmaxFits(k + 1);
    a := adler + buf[i];
    b := sum2 + a;
    assert buf[i..][1..] == buf[i + 1..];
  }

  /** DO4 */
  method Do4(adler: u32, sum2: u32, buf: seq<byte>, i: nat, ghost k: nat) returns (a: u32, b: u32)
    requires i + 4 <= |buf| && k + 4 <= NMAX && Within(adler, sum2, k)
    ensures Within(a, b, k + 4) && Raw(Sums(a, b), buf[i + 4..]) == Raw(Sums(adler, sum2), buf[i..])
  {
    hide Raw, Within;
    a, b := Do1(adler, sum2, buf, i, k);
    a, b := Do1(a, b, buf, i + 1, k + 1);
    a, b := Do1(a, b, buf, i + 2, k + 2);
    a, b := Do1(a, b, buf, i + 3, k + 3);
  }

  /** DO16 */
  method Do16(adler: u32, sum2: u32, buf: seq<byte>, i: nat, ghost k: nat) returns (a: u32, b: u32)
    requires i + 16 <= |buf| && k + 16 <= NMAX && Within(adler, sum2, k)
    ensures Within(a, b, k + 16) && Raw(Sums(a, b), buf[i + 16..]) == Raw(Sums(adler, sum2), buf[i..])
  {
    hide Raw, Within;
    a, b := Do4(adler, sum2, buf, i, k);
    a, b := Do4(a, b, buf, i + 4, k + 4);
    a, b := Do4(a, b, buf, i + 8, k + 8);
    a, b := Do4(a, b, buf, i + 12, k + 12);
  }

  /** n bytes, sixteen at a time and then one by one, without reduction. */
  method Block(adler: u32, sum2: u32, buf: seq<byte>, i: nat, n: nat) returns (a: u32, b: u32)
    requires i + n <= |buf| && n <= NMAX && Within(adler, sum2, 0)
    ensures Within(a, b, n) && Raw(Sums(a, b), buf[i + n..]) == Raw(Sums(adler, sum2), buf[i..])
  {
    hide Raw, Within;
    a, b := adler, sum2;
    var j: nat := 0;
    while n - j >= 16
      invariant j <= n && Within(a, b, j) && Raw(Sums(a, b), buf[i + j..]) == Raw(Sums(adler, sum2), buf[i..])
    {
      a, b := Do16(a, b, buf, i + j, j);
      j := j + 16;
    }
    while j < n
      invariant j <= n && Within(a, b, j) && Raw(Sums(a, b), buf[i + j..]) == Raw(Sums(adler, sum2), buf[i..])
    {
      a, b := Do1(a, b, buf, i + j, j);
      j := j + 1;
    }
  }

  /** MOD(adler), MOD(sum2) */
  method ModBoth(adler: u32, sum2: u32, ghost rest: seq<byte>, ghost h: Sums, ghost buf: seq<byte>)
    returns (a: u32, b: u32)
    requires Same(Raw(Sums(adler, sum2), rest), Sum(h, buf))
    ensures a < BASE && b < BASE && Same(Raw(Sums(a, b), rest), Sum(h, buf))
  {
    a := Mod(adler);
    b := Mod(sum2);
    var s := Sums(adler, sum2);
    RawIsSum(s, s, rest);
    RawIsSum(Sums(a, b), s, rest);
  }

  /** adler | (sum2 << 16) */
  function Packed(a: nat, b: nat): (v: u32)
    requires a < 65536 && b < 65536
    ensures Halves(v) == Sums(a, b)
  {
    a + 65536 * b
  }

  /** A single byte, with one subtraction for each sum. */
  method OneByte(adler: nat, sum2: nat, x: byte) returns (r: u32)
    requires adler < 65536 && sum2 < 65536
    ensures Same(Halves(r), Step(Sums(adler, sum2), x))
    ensures Reduced(Halves(r)) <==> sum2 + (adler + x) % BASE < 2 * BASE
  {
    var a: u32, b: u32 := adler + x, sum2;
    if a >= BASE { a := a - BASE; }
    b := b + a;
    if b >= BASE { b := b - BASE; }
    r := Packed(a, b);
  }

  /** Fewer than 16 bytes. */
  method FewBytes(adler: nat, sum2: nat, buf: seq<byte>) returns (r: u32)
    requires adler < 65536 && sum2 < 65536 && |buf| < 16
    ensures Same(Halves(r), Sum(Sums(adler, sum2), buf)) && Reduced(Halves(r))
  {
    hide Raw, Shl, Sum, Same;
    var a: u32, b: u32 := adler, sum2;
    var i: nat := 0;
    assert buf[0..] == buf;
    while i < |buf|
      invariant i <= |buf| && Within(a, b, i) && Raw(Sums(a, b), buf[i..]) == Raw(Sums(adler, sum2), buf)
    {
      a, b := Do1(a, b, buf, i, i);
      i := i + 1;
    }
    assert buf[i..] == [];
    RawNothing(Sums(a, b));
    RawIsSum2(Sums(adler, sum2), buf);
    MostIs(15);
    MostGrows(i, 15);
    assert a <= MostA(15) && b <= MostB(15);
    Halvings();
    FewMods(a, b, Sum(Sums(adler, sum2), buf));
    if a >= BASE { a := a - BASE; }
    b := Mod4(b);
    r := Packed(a, b);
  }

  lemma {:induction false} FewMods(a: nat, b: nat, t: Sums)
    requires Same(Sums(a, b), t) && a < 2 * BASE
    ensures Same(Sums(if a >= BASE then a - BASE else a, b % BASE), t)
  {}

  lemma {:induction false} RawNothing(s: Sums)
    ensures Raw(s, []) == s
  {}

  /** 16 bytes or more: blocks of NMAX bytes, each with one reduction, and what is left. */
  method ManyBytes(adler: nat, sum2: nat, buf: seq<byte>) returns (r: u32)
    requires adler < 65536 && sum2 < 65536 && |buf| >= 16
    ensures Same(Halves(r), Sum(Sums(adler, sum2), buf)) && Reduced(Halves(r))
  {
    hide Raw, Sum, Same;
    ghost var h := Sums(adler, sum2);
    var a: u32, b: u32 := adler, sum2;
    var i: nat := 0;
    assert buf[0..] == buf;
    RawIsSum2(h, buf);
    while |buf| - i >= NMAX
      invariant i <= |buf| && a < 65536 && b < 65536 && Same(Raw(Sums(a, b), buf[i..]), Sum(h, buf))
      invariant i > 0 ==> a < BASE && b < BASE
    {
      a, b := Block(a, b, buf, i, NMAX);
      i := i + NMAX;
      a, b := ModBoth(a, b, buf[i..], h, buf);
    }
    if i < |buf| {
      a, b := Block(a, b, buf, i, |buf| - i);
      i := |buf|;
      a, b := ModBoth(a, b, buf[i..], h, buf);
    }
    assert buf[i..] == [];
    RawNothing(Sums(a, b));
    r := Packed(a, b);
  }

  lemma {:induction false} RawIsSum2(h: Sums, buf: seq<byte>)
    ensures Same(Raw(h, buf), Sum(h, buf))
  {
    RawIsSum(h, h, buf);
  }

  /** adler32(): always right up to multiples of BASE, for any start value; exactly the
      definition when it starts from reduced halves; and reduced but for one case, a
      single byte added to a large second half. */
  method Adler32(adler: u32, buf: Option<seq<byte>>) returns (r: u32)
    ensures buf == None ==> r == 1
    ensures buf.Some? && adler == 1 ==> var s := buf.value;
      r == (1 + Bytes(s)) % 65521 + 65536 * ((|s| + Weighted(s)) % 65521)
    ensures buf.Some? ==> Same(Halves(r), Sum(Halves(adler), buf.value))
    ensures buf.Some? && Reduced(Halves(adler)) ==> Halves(r) == Sum(Halves(adler), buf.value)
    ensures buf.Some? ==> (!Reduced(Halves(r)) <==>
              |buf.value| == 1 && Halves(adler).b + (Halves(adler).a + buf.value[0]) % BASE >= 2 * BASE)
  {
    hide Sum, Step, Same, Bytes, Weighted;
    if buf == None { return 1; }
    var sum2, a, s := adler / 65536 % 65536, adler % 65536, buf.value;
    if |s| == 1 {
      r := OneByte(a, sum2, s[0]);
      SumOfOne(Sums(a, sum2), s);
    } else if |s| < 16 {
      r := FewBytes(a, sum2, s);
    } else {
      r := ManyBytes(a, sum2, s);
    }
    if Reduced(Halves(adler)) {
      SumReduced(Halves(adler), s);
      SameReduced(Halves(r), Sum(Halves(adler), s));
    }
    if adler == 1 {
      SumIs(s);
      HalvesMake(r);
    }
  }

  lemma {:induction false} HalvesMake(v: u32)
    ensures v == Halves(v).a + 65536 * Halves(v).b
  {}

  lemma {:induction false} SameReduced(s: Sums, t: Sums)
    requires Same(s, t) && Reduced(s) && Reduced(t)
    ensures s == t
  {}

  lemma {:induction false} SumOfOne(h: Sums, s: seq<byte>)
    requires |s| == 1
    ensures Sum(h, s) == Step(h, s[0])
  {
    assert s[1..] == [];
  }

  // ---- adler32_combine() ---------------------------------------------------------------------

  /** What the sums of b from (1, 0) say about those from elsewhere. */
  lemma {:induction false} RawShifts(s: Sums, d: nat, e: nat, buf: seq<byte>)
    ensures Raw(Sums(s.a + d, s.b + e), buf) == Sums(Raw(s, buf).a + d, Raw(s, buf).b + e + |buf| * d)
    decreases |buf|
  {
    if buf == [] {
    } else {
      RawShifts(Sums(s.a + buf[0], s.b + s.a + buf[0]), d, e + d, buf[1..]);
      assert |buf| * d == d + |buf[1..]| * d;
    }
  }

  /** x and y differ by a multiple of BASE. */
  predicate Alike(x: int, y: int) { (x - y) % BASE == 0 }

  lemma {:induction false} AlikeIsMod(x: nat, y: nat)
    ensures Alike(x, y) <==> x % BASE == y % BASE
  {}

  lemma {:induction false} AlikeTrans(x: int, y: int, z: int)
    requires Alike(x, y) && Alike(y, z)
    ensures Alike(x, z)
  {}

  lemma {:induction false} MultipleOfBase(k: int)
    ensures (k * BASE) % BASE == 0
  {}

  lemma {:induction false} AlikeTimes(x: int, y: int, c: int)
    requires Alike(x, y)
    ensures Alike(x * c, y * c)
  {
    var k := (x - y) / BASE;
    assert x - y == k * BASE;
    assert x * c - y * c == (x - y) * c == (k * c) * BASE;
    MultipleOfBase(k * c);
  }

  /** What n bytes add to the second sum when the first is x rather than 1. */
  lemma {:induction false} LenTimes(n: nat, rem: nat, x: nat, a: nat)
    requires rem == n % BASE && Alike(x, a)
    ensures Alike(n * (x + BASE - 1), rem * a - rem)
  {
    MultipleOfBase(n / BASE);
    assert n - rem == (n / BASE) * BASE;
    MultipleOfBase(1);
    AlikeTimes(n, rem, x + BASE - 1);
    AlikeTimes(x + BASE - 1, a - 1, rem);
    assert n * (x + BASE - 1) == (x + BASE - 1) * n;
    assert (x + BASE - 1) * rem == rem * (x + BASE - 1);
    AlikeTrans(n * (x + BASE - 1), rem * (x + BASE - 1), (a - 1) * rem);
    assert (a - 1) * rem == rem * a - rem;
  }

  /** The halves that the concatenation has, up to multiples of BASE. */
  lemma {:induction false} Concatenated(x: seq<byte>, y: seq<byte>, h1: Sums, h2: Sums)
    requires Same(h1, Sum(Sums(1, 0), x)) && Same(h2, Sum(Sums(1, 0), y))
    ensures var t, rem := Sum(Sums(1, 0), x + y), |y| % BASE;
            Alike(h1.a + h2.a - 1, t.a) && Alike(rem * h1.a + h1.b + h2.b - rem, t.b)
  {
    hide Sum, Raw, Alike;
    var s, one, n := Sum(Sums(1, 0), x), Sums(1, 0), |y|;
    var t, d, raw := Sum(one, x + y), s.a + BASE - 1, Raw(one, y);
    SumAppend(one, x, y);
    assert (s.a + BASE) % BASE == s.a % BASE;
    RawIsSum(Sums(1 + d, s.b), s, y);
    RawShifts(one, d, s.b, y);
    RawIsSum(one, one, y);
    AlikeIsMod(raw.a + d, t.a);
    AlikeIsMod(raw.b + s.b + n * d, t.b);
    AlikeIsMod(raw.a, h2.a);
    AlikeIsMod(raw.b, h2.b);
    AlikeIsMod(s.a, h1.a);
    AlikeIsMod(s.b, h1.b);
    LenTimes(n, n % BASE, s.a, h1.a);
    CombineAlike(raw, s, h1, h2, t, n);
  }

  lemma {:induction false} CombineAlike(raw: Sums, s: Sums, h1: Sums, h2: Sums, t: Sums, n: nat)
    requires var d := s.a + BASE - 1;
      && Alike(raw.a + d, t.a) && Alike(raw.b + s.b + n * d, t.b) && Alike(raw.a, h2.a) && Alike(raw.b, h2.b)
      && Alike(s.a, h1.a) && Alike(s.b, h1.b) && Alike(n * d, n % BASE * h1.a - n % BASE)
    ensures Alike(h1.a + h2.a - 1, t.a) && Alike(n % BASE * h1.a + h1.b + h2.b - n % BASE, t.b)
  {
    var m, q := n * (s.a + BASE - 1), n % BASE * h1.a;
    AlikeOf(m, q, n % BASE, raw, s, h1, h2, t);
  }

  lemma {:induction false} AlikeOf(m: int, q: int, rem: int, raw: Sums, s: Sums, h1: Sums, h2: Sums, t: Sums)
    requires Alike(raw.a + s.a + BASE - 1, t.a) && Alike(raw.b + s.b + m, t.b) && Alike(raw.a, h2.a) &&
             Alike(raw.b, h2.b)
    requires Alike(s.a, h1.a) && Alike(s.b, h1.b) && Alike(m, q - rem)
    ensures Alike(h1.a + h2.a - 1, t.a) && Alike(q + h1.b + h2.b - rem, t.b)
  {}

  /** sum1 | (sum2 << 16) on 32 bits, for sums that may have a 17th bit. */
  function OrShift(a: nat, b: nat): (v: u32)
    requires a < 2 * 65536 && b < 2 * 65536
    ensures a < 65536 && b < 65536 ==> Halves(v) == Sums(a, b)
  {
    var high := if a / 65536 == 1 && b % 2 == 0 then b + 1 else b;
    a % 65536 + 65536 * (high % 65536)
  }

  /** The reductions of adler32_combine: by > rather than >=, so that zero comes out as
      BASE. */
  method Reduce(sum1: u32, sum2: u32) returns (a: u32, b: u32)
    requires sum1 < 3 * 65536 && sum2 < 4 * 65536 && BASE - 1 <= sum1 && 1 <= sum2
    ensures a < 2 * 65536 && b < 2 * 65536 && Alike(a, sum1) && Alike(b, sum2)
    ensures sum1 <= 3 * BASE ==> 1 <= a <= BASE
    ensures sum2 <= 4 * BASE ==> 1 <= b <= BASE
  {
    a, b := sum1, sum2;
    if a > BASE { a := a - BASE; }
    if a > BASE { a := a - BASE; }
    if b > 2 * BASE { b := b - 2 * BASE; }
    if b > BASE { b := b - BASE; }
  }

  /** adler32_combine(): for the checksums of two strings, the halves of that of their
      concatenation, up to a multiple of BASE; and from halves up to BASE, halves from 1
      to BASE. */
  method Adler32Combine(adler1: u32, adler2: u32, len2: nat) returns (r: u32)
    ensures var h1, h2 := Halves(adler1), Halves(adler2);
      h1.a <= BASE && h2.a <= BASE && h1.b <= BASE && h2.b <= BASE ==>
        && 1 <= Halves(r).a <= BASE && 1 <= Halves(r).b <= BASE
        && forall x: seq<byte>, y: seq<byte> ::
             Same(h1, Sum(Sums(1, 0), x)) && Same(h2, Sum(Sums(1, 0), y)) && |y| == len2 ==>
             Same(Halves(r), Sum(Sums(1, 0), x + y))
  {
    hide Shl, Sum, Alike, Same, Halves;
    ghost var h1, h2 := Halves(adler1), Halves(adler2);
    var rem: u32 := len2 % BASE;
    var sum1, sum2 := Combination(adler1, adler2, rem);
    var a, b := Reduce(sum1, sum2);
    r := OrShift(a, b);
    forall x: seq<byte>, y: seq<byte> |
      Same(h1, Sum(Sums(1, 0), x)) && Same(h2, Sum(Sums(1, 0), y)) && |y| == len2
      ensures Same(Sums(a, b), Sum(Sums(1, 0), x + y)) {
      Concatenated(x, y, h1, h2);
      Settled(a, b, sum1, sum2, rem * h1.a, rem, h1, h2, Sum(Sums(1, 0), x + y));
    }
  }

  /** The two sums before they are reduced. */
  method Combination(adler1: u32, adler2: u32, rem: u32) returns (sum1: u32, sum2: u32)
    requires rem < BASE
    ensures var h1, h2 := Halves(adler1), Halves(adler2);
      && sum1 == h1.a + h2.a + BASE - 1 && Alike(sum2, rem * h1.a + h1.b + h2.b + BASE - rem)
      && BASE - 1 <= sum1 < 3 * 65536 && 1 <= sum2 < 4 * 65536
      && (h1.a <= BASE && h2.a <= BASE ==> sum1 <= 3 * BASE)
      && (h1.b <= BASE && h2.b <= BASE ==> sum2 <= 4 * BASE)
  {
    hide Shl, Alike;
    sum1 := adler1 % 65536;
    ProductFits(rem, sum1);
    sum2 := rem * sum1;
    ghost var q := sum2;
    sum2 := Mod(sum2);
    ghost var m := sum2;
    AlikeIsMod(m, q);
    AlikeMore(m, q, adler1 / 65536 % 65536 + adler2 / 65536 % 65536 + BASE - rem);
    sum1 := sum1 + adler2 % 65536 + BASE - 1;
    sum2 := sum2 + adler1 / 65536 % 65536 + adler2 / 65536 % 65536 + BASE - rem;
  }

  lemma {:induction false} AlikeMore(x: int, y: int, z: int)
    requires Alike(x, y)
    ensures Alike(x + z, y + z)
  {}

  lemma {:induction false} Settled(a: nat, b: nat, sum1: nat, sum2: nat, q: nat, rem: nat, h1: Sums, h2: Sums, t: Sums)
    requires Alike(a, sum1) && Alike(b, sum2)
    requires sum1 == h1.a + h2.a + BASE - 1 && Alike(sum2, q + h1.b + h2.b + BASE - rem)
    requires Alike(h1.a + h2.a - 1, t.a) && Alike(q + h1.b + h2.b - rem, t.b)
    ensures Same(Sums(a, b), t)
  {
    AlikeIsMod(a, t.a);
    AlikeIsMod(b, t.b);
  }

  lemma {:induction false} ProductFits(x: nat, y: nat)
    requires x <= 65520 && y <= 65535
    ensures x * y < 0x1_0000_0000
  {
    MulMono(x, 65520, y);
  }
}
