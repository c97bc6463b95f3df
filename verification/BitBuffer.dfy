/** The bit accumulator of inflate(): hold and bits against the stream of bytes. */
module BitBuffer {
  import opened Bits
  import opened Streams

  /** hold is the last bits bits of the first taken bytes of src. */
  ghost predicate Holds(src: seq<byte>, taken: nat, hold: nat, bits: nat) {
    && taken <= |src| && bits <= 8 * taken
    && hold == Num(ByteBits(src), 8 * taken - bits, bits)
  }

  lemma {:induction false} HoldBound(src: seq<byte>, taken: nat, hold: nat, bits: nat)
    requires Holds(src, taken, hold, bits)
    ensures hold < Pow2(bits)
  {
    NumBound(ByteBits(src), 8 * taken - bits, bits);
  }

  /** PULLBYTE */
  lemma {:induction false} Pulled(src: seq<byte>, taken: nat, hold: nat, bits: nat)
    requires Holds(src, taken, hold, bits) && taken < |src|
    ensures Holds(src, taken + 1, hold + Shl(src[taken], bits), bits + 8)
  {
    hide Shl, LE, Low, Pow2, ToLE;
    var S, p := ByteBits(src), 8 * taken - bits;
    ByteBitsAt(src, taken);
    LEToLE(8, src[taken]);
    Pow2Values();
    LowSmall(src[taken], 8);
    LEAppend(S[p..p + bits], S[8 * taken..8 * taken + 8]);
    assert S[p..p + bits] + S[8 * taken..8 * taken + 8] == S[p..p + bits + 8];
  }

  /** BITS(n) */
  lemma {:induction false} LowBits(src: seq<byte>, taken: nat, hold: nat, bits: nat, n: nat)
    requires Holds(src, taken, hold, bits) && n <= bits
    ensures Low(hold, n) == Num(ByteBits(src), 8 * taken - bits, n)
  {
    var S, p := ByteBits(src), 8 * taken - bits;
    LESplit(S[p..p + bits], n);
    assert S[p..p + bits][..n] == S[p..p + n];
  }

  /** DROPBITS(n) */
  lemma {:induction false} Dropped(src: seq<byte>, taken: nat, hold: nat, bits: nat, n: nat)
    requires Holds(src, taken, hold, bits) && n <= bits
    ensures Holds(src, taken, Shr(hold, n), bits - n)
  {
    var S, p := ByteBits(src), 8 * taken - bits;
    LESplit(S[p..p + bits], n);
    assert S[p..p + bits][n..] == S[p + n..p + bits];
  }

  /** Giving back whole bytes that have not been looked at. */
  lemma {:induction false} GivenBack(src: seq<byte>, taken: nat, hold: nat, bits: nat, k: nat)
    requires Holds(src, taken, hold, bits) && 8 * k <= bits
    ensures Holds(src, taken - k, Low(hold, bits - 8 * k), bits - 8 * k)
  {
    LowBits(src, taken, hold, bits, bits - 8 * k);
  }

  /** What is in the buffer does not depend on the input that follows. */
  lemma {:induction false} MoreInput(src: seq<byte>, taken: nat, hold: nat, bits: nat, src': seq<byte>)
    requires Holds(src, taken, hold, bits) && taken <= |src'| && src[..taken] == src'[..taken]
    ensures Holds(src', taken, hold, bits)
  {
    TakenBits(src, taken);
    TakenBits(src', taken);
    var p := 8 * taken - bits;
    assert ByteBits(src)[p..p + bits] == ByteBits(src[..taken])[p..p + bits];
    assert ByteBits(src')[p..p + bits] == ByteBits(src'[..taken])[p..p + bits];
  }

  lemma {:induction false} TakenBits(src: seq<byte>, taken: nat)
    requires taken <= |src|
    ensures ByteBits(src)[..8 * taken] == ByteBits(src[..taken])
  {
    ByteBitsAppend(src[..taken], src[taken..]);
    assert src == src[..taken] + src[taken..];
  }

  /** The byte at a byte boundary. */
  lemma {:induction false} ByteAt(src: seq<byte>, i: nat)
    requires i < |src|
    ensures Num(ByteBits(src), 8 * i, 8) == src[i]
  {
    ByteBitsAt(src, i);
    LEToLE(8, src[i]);
    Pow2Values();
    LowSmall(src[i], 8);
  }

  /** With no bits in the buffer, whole bytes can be taken past it. */
  lemma {:induction false} EmptyMoves(src: seq<byte>, taken: nat, n: nat)
    requires taken + n <= |src|
    ensures forall hold: nat :: Holds(src, taken, hold, 0) ==> Holds(src, taken + n, hold, 0)
  {
    var S := ByteBits(src);
    assert S[8 * taken..8 * taken] == [] == S[8 * (taken + n)..8 * (taken + n)];
  }
}
