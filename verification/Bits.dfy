/** Shifts, masks, bit reversal and bit strings: the vocabulary that the Huffman
    code, the table builder and the decoder share.

    Shl, Shr and Low are the C operators << , >> and "& ((1 << n) - 1)" on
    unsigned numbers. They recurse one bit at a time, which keeps every proof
    about them linear; ShiftsAreDivision says what they compute. */
module Bits {

  type byte = x: nat | x < 256
  type u16 = x: nat | x < 0x1_0000
  type u32 = x: nat | x < 0x1_0000_0000

  /** The widths of C: eight, 16 and 32 bits. */
  lemma {:induction false} Widths(b: byte, h: u16, w: u32)
    ensures b < Pow2(8) && h < Pow2(16) && w < Pow2(32)
  {
    Pow2Values();
    assert Pow2(20) == 0x10_0000;
    assert Pow2(26) == 0x400_0000;
    assert Pow2(32) == 0x1_0000_0000;
  }

  datatype Option<T> = None | Some(value: T)

  function Min(a: nat, b: nat): (m: nat)
    ensures m <= a && m <= b && (m == a || m == b)
  {
    if a < b then a else b
  }

  function Pow2(n: nat): (p: nat)
    ensures p >= 1
  {
    if n == 0 then 1 else 2 * Pow2(n - 1)
  }

  /** x << n */
  function Shl(x: nat, n: nat): nat {
    if n == 0 then x else 2 * Shl(x, n - 1)
  }

  /** x >> n */
  function Shr(x: nat, n: nat): nat {
    if n == 0 then x else Shr(x / 2, n - 1)
  }

  /** x & ((1 << n) - 1) */
  function Low(x: nat, n: nat): nat {
    if n == 0 then 0 else x % 2 + 2 * Low(x / 2, n - 1)
  }

  // ---- Laws of the shifts -------------------------------------------------------

  lemma {:induction false} Split(x: nat, n: nat)
    ensures x == Low(x, n) + Shl(Shr(x, n), n)
    ensures Low(x, n) < Pow2(n)
  {
    if n == 0 {
    } else {
      Split(x / 2, n - 1);
    }
  }

  lemma {:induction false} Join(a: nat, b: nat, n: nat)
    requires a < Pow2(n)
    ensures Low(a + Shl(b, n), n) == a && Shr(a + Shl(b, n), n) == b
  {
    if n == 0 {
    } else {
      var x := a + Shl(b, n);
      assert x % 2 == a % 2 && x / 2 == a / 2 + Shl(b, n - 1);
      Join(a / 2, b, n - 1);
    }
  }

  lemma {:induction false} LowSmall(a: nat, n: nat)
    requires a < Pow2(n)
    ensures Low(a, n) == a && Shr(a, n) == 0
  {
    Join(a, 0, n);
    ShlZero(n);
  }

  lemma {:induction false} ShlZero(n: nat)
    ensures Shl(0, n) == 0 && Low(0, n) == 0 && Shr(0, n) == 0
  {
    if n == 0 {
    } else {
      ShlZero(n - 1);
    }
  }

  lemma {:induction false} ShlAdd(x: nat, y: nat, n: nat)
    ensures Shl(x + y, n) == Shl(x, n) + Shl(y, n)
  {
    if n == 0 {
    } else {
      ShlAdd(x, y, n - 1);
    }
  }

  lemma {:induction false} ShlShl(x: nat, a: nat, b: nat)
    ensures Shl(Shl(x, a), b) == Shl(x, a + b)
  {
    if b == 0 {
    } else {
      ShlShl(x, a, b - 1);
    }
  }

  lemma {:induction false} ShlOne(n: nat)
    ensures Shl(1, n) == Pow2(n)
  {
    if n == 0 {
    } else {
      ShlOne(n - 1);
    }
  }

  lemma {:induction false} ShlPow2(a: nat, b: nat)
    ensures Shl(Pow2(a), b) == Pow2(a + b)
  {
    ShlOne(a);
    ShlOne(a + b);
    ShlShl(1, a, b);
  }

  lemma {:induction false} ShlMono(x: nat, y: nat, n: nat)
    ensures x <= y <==> Shl(x, n) <= Shl(y, n)
  {
    if n == 0 {
    } else {
      ShlMono(x, y, n - 1);
    }
  }

  lemma {:induction false} ShlBound(x: nat, n: nat)
    ensures Shl(x, n) >= x
  {
    if n == 0 {
    } else {
      ShlBound(x, n - 1);
    }
  }

  lemma {:induction false} ShrMono(x: nat, y: nat, n: nat)
    requires x <= y
    ensures Shr(x, n) <= Shr(y, n)
  {
    if n == 0 {
    } else {
      ShrMono(x / 2, y / 2, n - 1);
    }
  }

  lemma {:induction false} ShrShr(x: nat, a: nat, b: nat)
    ensures Shr(Shr(x, a), b) == Shr(x, a + b)
  {
    if a == 0 {
    } else {
      ShrShr(x / 2, a - 1, b);
    }
  }

  lemma {:induction false} LowLow(x: nat, n: nat, m: nat)
    requires n <= m
    ensures Low(Low(x, m), n) == Low(x, n)
    ensures Shr(Low(x, m), n) == Low(Shr(x, n), m - n)
  {
    if n == 0 {
    } else {
      assert Low(x, m) % 2 == x % 2 && Low(x, m) / 2 == Low(x / 2, m - 1);
      LowLow(x / 2, n - 1, m - 1);
    }
  }

  /** A number below 2^(n+m) has a quotient below 2^m, and conversely. */
  lemma {:induction false} ShrBound(x: nat, n: nat, b: nat)
    ensures x < Shl(b, n) <==> Shr(x, n) < b
  {
    Split(x, n);
    var q := Shr(x, n);
    ShlMono(b, q, n);
    ShlMono(q + 1, b, n);
    ShlAdd(q, 1, n);
    ShlOne(n);
  }

  lemma {:induction false} Pow2Mono(a: nat, b: nat)
    requires a <= b
    ensures Pow2(a) <= Pow2(b)
    ensures a < b ==> 2 * Pow2(a) <= Pow2(b)
  {
    ShlPow2(a, b - a);
    ShlBound(Pow2(a), b - a);
    if a < b {
      ShlPow2(a + 1, b - a - 1);
      ShlBound(Pow2(a + 1), b - a - 1);
    }
  }

  /** The values the source writes as literals. */
  lemma {:induction false} Pow2Values()
    ensures Pow2(0) == 1 && Pow2(1) == 2 && Pow2(2) == 4 && Pow2(3) == 8 && Pow2(4) == 16
    ensures Pow2(5) == 32 && Pow2(6) == 64 && Pow2(7) == 128 && Pow2(8) == 256 && Pow2(9) == 512
    ensures Pow2(10) == 1024 && Pow2(11) == 2048 && Pow2(12) == 4096
    ensures Pow2(13) == 8192 && Pow2(14) == 16384 && Pow2(15) == 32768 && Pow2(16) == 65536
  {}

  /** Shr and Low are division and remainder by a power of two. */
  lemma {:induction false} ShiftsAreDivision(x: nat, n: nat)
    ensures Shl(x, n) == x * Pow2(n) && Shr(x, n) == x / Pow2(n) && Low(x, n) == x % Pow2(n)
  {
    ShlIsProduct(x, n);
    Split(x, n);
    ShlIsProduct(Shr(x, n), n);
    DivModUnique(x, Pow2(n), Shr(x, n), Low(x, n));
  }

  lemma {:induction false} ShlIsProduct(x: nat, n: nat)
    ensures Shl(x, n) == Pow2(n) * x
  {
    if n == 0 {
    } else {
      ShlIsProduct(x, n - 1);
    }
  }

  lemma {:induction false} DivModUnique(x: nat, d: nat, q: nat, r: nat)
    requires x == d * q + r && r < d
    ensures x / d == q && x % d == r
  {
    var q', r' := x / d, x % d;
    assert x == d * q' + r';
    if q' < q {
      MulMono(q' + 1, q, d);
      assert false;
    }
    if q < q' {
      MulMono(q + 1, q', d);
      assert false;
    }
  }

  lemma {:induction false} MulMono(a: nat, b: nat, c: nat)
    requires a <= b
    ensures c * a <= c * b
  {}

  // ---- Bit reversal -----------------------------------------------------------

  /** The low n bits of x in reverse order. */
  function Rev(n: nat, x: nat): nat {
    if n == 0 then 0 else (if x % 2 == 1 then Pow2(n - 1) else 0) + Rev(n - 1, x / 2)
  }

  lemma {:induction false} RevBound(n: nat, x: nat)
    ensures Rev(n, x) < Pow2(n)
  {
    if n == 0 {
    } else {
      RevBound(n - 1, x / 2);
    }
  }

  /** Reversing a concatenation swaps the parts and reverses each. */
  lemma {:induction false} RevConcat(n: nat, m: nat, x: nat)
    ensures Rev(n + m, x) == Rev(m, Shr(x, n)) + Shl(Rev(n, x), m)
  {
    if n == 0 {
      ShlZero(m);
    } else {
      RevConcat(n - 1, m, x / 2);
      ShlPow2(n - 1, m);
      ShlAdd(if x % 2 == 1 then Pow2(n - 1) else 0, Rev(n - 1, x / 2), m);
      ShlZero(m);
    }
  }

  lemma {:induction false} RevLow(n: nat, x: nat, k: nat)
    requires n <= k
    ensures Rev(n, Low(x, k)) == Rev(n, x)
  {
    if n == 0 {
    } else {
      DivModUnique(Low(x, k), 2, Low(x / 2, k - 1), x % 2);
      RevLow(n - 1, x / 2, k - 1);
    }
  }

  lemma {:induction false} RevRev(n: nat, x: nat)
    ensures Rev(n, Rev(n, x)) == Low(x, n)
  {
    if n == 0 {
    } else {
      var a, top := Rev(n - 1, x / 2), if x % 2 == 1 then 1 else 0;
      RevBound(n - 1, x / 2);
      ShlOne(n - 1);
      ShlZero(n - 1);
      assert Rev(n, x) == a + Shl(top, n - 1);
      Join(a, top, n - 1);
      RevConcat(n - 1, 1, Rev(n, x));
      RevLow(n - 1, Rev(n, x), n - 1);
      RevRev(n - 1, x / 2);
      RevOne(top);
      assert Shl(Rev(n - 1, a), 1) == 2 * Rev(n - 1, a);
    }
  }

  lemma {:induction false} RevOne(b: nat)
    requires b < 2
    ensures Rev(1, b) == b
  {
    assert Rev(0, b / 2) == 0 && Pow2(0) == 1;
  }

  /** The first n bits of a reversed m-bit number are its top n bits, reversed,
      and the rest are its low bits, reversed. */
  lemma {:induction false} RevParts(n: nat, m: nat, c: nat)
    requires n <= m
    ensures Low(Rev(m, c), n) == Rev(n, Shr(c, m - n))
    ensures Shr(Rev(m, c), n) == Rev(m - n, c)
  {
    RevConcat(m - n, n, c);
    RevBound(n, Shr(c, m - n));
    Join(Rev(n, Shr(c, m - n)), Rev(m - n, c), n);
  }

  /** Appending zero bits to a code leaves its reversal unchanged. */
  lemma {:induction false} RevShift(n: nat, k: nat, c: nat)
    ensures Rev(n + k, Shl(c, k)) == Rev(n, c)
  {
    RevConcat(k, n, Shl(c, k));
    Pow2Pos(k);
    Join(0, c, k);
    RevLow(k, Shl(c, k), k);
    RevZero(k);
    ShlZero(n);
  }

  lemma {:induction false} Pow2Pos(k: nat)
    ensures 0 < Pow2(k)
  {}

  lemma {:induction false} RevZero(n: nat)
    ensures Rev(n, 0) == 0
  {
    if n == 0 {
    } else {
      RevZero(n - 1);
    }
  }

  // ---- Bit strings ------------------------------------------------------------

  function Bit(b: bool): nat { if b then 1 else 0 }

  /** The number whose binary digits are w, least significant first. */
  function LE(w: seq<bool>): nat {
    if w == [] then 0 else Bit(w[0]) + 2 * LE(w[1..])
  }

  /** The n-digit binary numeral of x, most significant digit first: how section
      3.1.1 of RFC 1951 packs a Huffman code. */
  function ToBE(n: nat, x: nat): (w: seq<bool>)
    ensures |w| == n
  {
    if n == 0 then [] else ToBE(n - 1, x / 2) + [x % 2 == 1]
  }

  lemma {:induction false} LEBound(w: seq<bool>)
    ensures LE(w) < Pow2(|w|)
  {
    if w == [] {
    } else {
      LEBound(w[1..]);
    }
  }

  lemma {:induction false} LEAppend(a: seq<bool>, b: seq<bool>)
    ensures LE(a + b) == LE(a) + Shl(LE(b), |a|)
  {
    if a == [] {
      assert a + b == b;
    } else {
      assert (a + b)[1..] == a[1..] + b;
      LEAppend(a[1..], b);
      assert LE(a + b) == Bit(a[0]) + 2 * LE(a[1..] + b);
    }
  }

  lemma {:induction false} LESplit(w: seq<bool>, n: nat)
    requires n <= |w|
    ensures Low(LE(w), n) == LE(w[..n])
    ensures Shr(LE(w), n) == LE(w[n..])
  {
    var a, b := w[..n], w[n..];
    LEConcat(a, b);
    assert w == a + b by {
      hide *;
    }
  }

  lemma {:induction false} LEConcat(a: seq<bool>, b: seq<bool>)
    ensures Low(LE(a + b), |a|) == LE(a)
    ensures Shr(LE(a + b), |a|) == LE(b)
  {
    LEAppend(a, b);
    LEBound(a);
    Join(LE(a), LE(b), |a|);
  }

  lemma {:induction false} LEInjective(a: seq<bool>, b: seq<bool>)
    requires |a| == |b| && LE(a) == LE(b)
    ensures a == b
  {
    if a == [] {
    } else {
      LEInjective(a[1..], b[1..]);
      assert a == [a[0]] + a[1..] && b == [b[0]] + b[1..];
    }
  }

  /** A code packed most significant bit first is read back reversed by a
      decoder that takes the first bit of the stream as the least significant. */
  lemma {:induction false} LEToBE(n: nat, x: nat)
    ensures LE(ToBE(n, x)) == Rev(n, x)
  {
    if n == 0 {
    } else {
      LEToBE(n - 1, x / 2);
      LEAppend(ToBE(n - 1, x / 2), [x % 2 == 1]);
      assert LE([x % 2 == 1]) == x % 2;
      ShlOne(n - 1);
      ShlZero(n - 1);
    }
  }

  // ---- Bytes ------------------------------------------------------------------

  /** The low n bits of x, least significant first. */
  function ToLE(n: nat, x: nat): (w: seq<bool>)
    ensures |w| == n
  {
    if n == 0 then [] else [x % 2 == 1] + ToLE(n - 1, x / 2)
  }

  lemma {:induction false} LEToLE(n: nat, x: nat)
    ensures LE(ToLE(n, x)) == Low(x, n)
  {
    if n == 0 {
    } else {
      LEToLE(n - 1, x / 2);
    }
  }

  /** The bits of a byte sequence in the order of section 3.1.1 of RFC 1951. */
  function ByteBits(s: seq<byte>): (w: seq<bool>)
    ensures |w| == 8 * |s|
  {
    if s == [] then [] else ToLE(8, s[0]) + ByteBits(s[1..])
  }

  lemma {:induction false} ByteBitsAppend(a: seq<byte>, b: seq<byte>)
    ensures ByteBits(a + b) == ByteBits(a) + ByteBits(b)
  {
    if a == [] {
      assert a + b == b;
    } else {
      assert (a + b)[1..] == a[1..] + b;
      ByteBitsAppend(a[1..], b);
    }
  }

  lemma {:induction false} ByteBitsAt(s: seq<byte>, i: nat)
    requires i < |s|
    ensures ByteBits(s)[8 * i..8 * i + 8] == ToLE(8, s[i])
  {
    assert s == s[..i] + ([s[i]] + s[i + 1..]);
    ByteBitsAppend(s[..i], [s[i]] + s[i + 1..]);
    ByteBitsAppend([s[i]], s[i + 1..]);
    assert ByteBits([s[i]]) == ToLE(8, s[i]) + ByteBits([]);
  }
}
