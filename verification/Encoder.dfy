/** What a compressor may write, by section 3.2 of RFC 1951 read from the writer's side: any
    choice of blocks, matches and codes. The reference decoder gives back what it stands
    for. Here a match and a code length repeat are said without the decoder's functions. */
module Encoder {
  import opened Bits
  import opened Canonical
  import opened Tables
  import opened Streams
  import M = Machine
  import R = Rfc1951

  // ---- Bits that are where they should be ------------------------------------------------

  /** The bits w are in S from pos on. */
  ghost predicate At(S: seq<bool>, pos: nat, w: seq<bool>) {
    pos + |w| <= |S| && S[pos..pos + |w|] == w
  }

  lemma {:induction false} AtParts(S: seq<bool>, pos: nat, v: seq<bool>, w: seq<bool>)
    requires At(S, pos, v + w)
    ensures At(S, pos, v) && At(S, pos + |v|, w)
  {
    var n := pos + |v + w|;
    assert S[pos..pos + |v|] == S[pos..n][..|v|] == v;
    assert S[pos + |v|..n] == S[pos..n][|v|..] == w;
  }

  lemma {:induction false} NumAt(S: seq<bool>, pos: nat, n: nat, x: nat)
    requires At(S, pos, ToLE(n, x)) && x < Pow2(n)
    ensures pos + n <= |S| && Num(S, pos, n) == x
  {
    LEToLE(n, x);
    LowSmall(x, n);
  }

  lemma {:induction false} CodeAt(kind: Kind, lens: Lens, S: seq<bool>, pos: nat, s: nat)
    requires Acceptable(kind, lens) && Uses(lens, s) && At(S, pos, CodeBits(lens, s))
    ensures pos + lens[s] <= |S| && Decode(lens, S[pos..]) == Found(s, lens[s])
  {
    hide Decode, Acceptable, CodeBits;
    AcceptableFits(kind, lens);
    assert S[pos..][..lens[s]] == CodeBits(lens, s);
    DecodeFound(lens, s, S[pos..]);
  }

  // ---- Data (section 3.2.3) ---------------------------------------------------------------

  datatype Token = Literal(b: byte) | Match(length: nat, distance: nat, long: bool)

  /** What a token stands for: a byte, or the bytes that far back, over and over if there are
      fewer of them. */
  function Apply(out: seq<byte>, t: Token): seq<byte>
    requires TokenOK(out, t)
  {
    match t
    case Literal(b) => out + [b]
    case Match(length, distance, _) =>
      out + seq<byte>(length, i requires 0 <= i < length => out[|out| - distance + i % distance])
  }

  predicate TokenOK(out: seq<byte>, t: Token) {
    t.Match? ==>
      3 <= t.length <= 258 && 1 <= t.distance <= 32768 && t.distance <= |out| && (t.long ==> t.length == 258)
  }

  predicate TokensOK(out: seq<byte>, ts: seq<Token>)
    decreases |ts|
  {
    ts == [] || (TokenOK(out, ts[0]) && TokensOK(Apply(out, ts[0]), ts[1..]))
  }

  function Expand(out: seq<byte>, ts: seq<Token>): seq<byte>
    requires TokensOK(out, ts)
    decreases |ts|
  {
    if ts == [] then out else Expand(Apply(out, ts[0]), ts[1..])
  }

  /** A match is what the decoder copies byte by byte. */
  lemma {:induction false} CopyIsPeriodic(out: seq<byte>, length: nat, distance: nat, k: nat)
    requires 1 <= distance <= |out| && k <= length
    ensures |R.CopyMatch(out, length, distance)| == |out| + length
    ensures k < length ==> R.CopyMatch(out, length, distance)[|out| + k] == out[|out| - distance + k % distance]
    decreases length
  {
    if length == 0 {
    } else {
      var out' := out + [out[|out| - distance]];
      if k == 0 {
        CopyIsPeriodic(out', length - 1, distance, 0);
      } else if k < length {
        CopyIsPeriodic(out', length - 1, distance, k - 1);
        NextMod(k, distance);
      } else {
        CopyIsPeriodic(out', length - 1, distance, k - 1);
      }
    }
  }

  lemma {:induction false} NextMod(k: nat, d: nat)
    requires k > 0 && d > 0
    ensures k % d == if (k - 1) % d == d - 1 then 0 else (k - 1) % d + 1
  {
    var q, r := (k - 1) / d, (k - 1) % d;
    assert k - 1 == d * q + r;
    if r == d - 1 {
      assert d * (q + 1) == d * q + d;
      DivModUnique(k, d, q + 1, 0);
    } else {
      DivModUnique(k, d, q, r + 1);
    }
  }

  lemma {:induction false} CopyIsApply(out: seq<byte>, length: nat, distance: nat, long: bool)
    requires TokenOK(out, Match(length, distance, long))
    ensures R.CopyMatch(out, length, distance) == Apply(out, Match(length, distance, long))
  {
    var r := R.CopyMatch(out, length, distance);
    forall k | 0 <= k < length ensures r[|out| + k] == out[|out| - distance + k % distance] {
      CopyIsPeriodic(out, length, distance, k);
    }
    assert r[..|out|] == out;
  }

  /** The symbols for a length and a distance. */
  function LenSymbol(length: nat, s: nat): (r: nat)
    requires 257 <= s <= 284 && LenBase(s) <= length <= 258
    ensures 257 <= r < 286 && LenBase(r) <= length < LenBase(r) + Pow2(LenExtra(r))
    decreases 284 - s
  {
    LengthsTile(257);
    if length < LenBase(s) + Pow2(LenExtra(s)) then s
    else LengthsTile(if s < 284 then s else 257); LenSymbol(length, s + 1)
  }

  function DistSymbol(distance: nat, d: nat): (r: nat)
    requires d < 30 && DistBase(d) <= distance <= 32768
    ensures r < 30 && DistBase(r) <= distance < DistBase(r) + Pow2(DistExtra(r))
    decreases 29 - d
  {
    DistancesTile(if d < 29 then d else 0);
    if distance < DistBase(d) + Pow2(DistExtra(d)) then d else DistSymbol(distance, d + 1)
  }

  /** A length of 258 has a symbol of its own, and is also the longest of the one before. */
  function LenOf(length: nat, long: bool): (r: nat)
    requires 3 <= length <= 258
    ensures 257 <= r < 286 && LenBase(r) <= length < LenBase(r) + Pow2(LenExtra(r))
  {
    LengthsTile(257);
    if length == 258 && !long then 285 else LenSymbol(length, 257)
  }

  function DistOf(distance: nat): (r: nat)
    requires 1 <= distance <= 32768
    ensures r < 30 && DistBase(r) <= distance < DistBase(r) + Pow2(DistExtra(r))
  {
    DistancesTile(0);
    DistSymbol(distance, 0)
  }

  /** The codes have the symbols that the token needs. */
  ghost predicate Can(c: M.Codes, t: Token) {
    match t
    case Literal(b) => Uses(c.ll, b)
    case Match(length, distance, long) =>
      3 <= length <= 258 && 1 <= distance <= 32768 && Uses(c.ll, LenOf(length, long)) && Uses(c.dl, DistOf(distance))
  }

  ghost predicate CanAll(c: M.Codes, ts: seq<Token>) {
    Uses(c.ll, 256) && forall i :: 0 <= i < |ts| ==> Can(c, ts[i])
  }

  ghost function LenBits(c: M.Codes, length: nat, long: bool): seq<bool>
    requires 3 <= length <= 258 && Uses(c.ll, LenOf(length, long))
  {
    var s := LenOf(length, long);
    CodeBits(c.ll, s) + ToLE(LenExtra(s), length - LenBase(s))
  }

  ghost function DistBits(c: M.Codes, distance: nat): seq<bool>
    requires 1 <= distance <= 32768 && Uses(c.dl, DistOf(distance))
  {
    var d := DistOf(distance);
    CodeBits(c.dl, d) + ToLE(DistExtra(d), distance - DistBase(d))
  }

  ghost function TokenBits(c: M.Codes, t: Token): seq<bool>
    requires Can(c, t)
  {
    match t
    case Literal(b) => CodeBits(c.ll, b)
    case Match(length, distance, long) => LenBits(c, length, long) + DistBits(c, distance)
  }

  /** The tokens, and the end of the block. */
  ghost function DataBits(c: M.Codes, ts: seq<Token>): seq<bool>
    requires CanAll(c, ts)
  {
    if ts == [] then CodeBits(c.ll, 256) else TokenBits(c, ts[0]) + DataBits(c, ts[1..])
  }

  lemma {:induction false} ReadDistance(c: M.Codes, S: Stream, pos: nat, out: seq<byte>, length: nat, distance: nat)
    requires M.CodesOK(c) && 1 <= distance <= 32768 && distance <= |out| && Uses(c.dl, DistOf(distance))
    requires At(S, pos, DistBits(c, distance))
    ensures R.Pair(c, S, pos, out, length) ==
            R.Symbols(c, S, pos + |DistBits(c, distance)|, R.CopyMatch(out, length, distance))
  {
    hide Acceptable, Decode, CodeBits, DistBase, DistExtra, Num, R.CopyMatch, R.Symbols, At, ToLE, DistOf, Pow2;
    var d := DistOf(distance);
    AtParts(S, pos, CodeBits(c.dl, d), ToLE(DistExtra(d), distance - DistBase(d)));
    CodeAt(DISTS, c.dl, S, pos, d);
    NumAt(S, pos + c.dl[d], DistExtra(d), distance - DistBase(d));
  }

  lemma {:induction false} ReadMatch(c: M.Codes, S: Stream, pos: nat, out: seq<byte>, t: Token)
    requires t.Match? && M.CodesOK(c) && TokenOK(out, t) && Can(c, t) && At(S, pos, TokenBits(c, t))
    ensures R.Symbols(c, S, pos, out) == R.Symbols(c, S, pos + |TokenBits(c, t)|, Apply(out, t))
  {
    hide Acceptable, Decode, CodeBits, LenBase, LenExtra, DistBits, Num, R.CopyMatch, R.Pair, Apply, At, ToLE, LenOf,
         Pow2;
    var Match(length, distance, long) := t;
    var s := LenOf(length, long);
    var v, w := CodeBits(c.ll, s), ToLE(LenExtra(s), length - LenBase(s));
    AtParts(S, pos, v + w, DistBits(c, distance));
    AtParts(S, pos, v, w);
    CodeAt(LENS, c.ll, S, pos, s);
    NumAt(S, pos + c.ll[s], LenExtra(s), length - LenBase(s));
    ReadDistance(c, S, pos + c.ll[s] + LenExtra(s), out, length, distance);
    CopyIsApply(out, length, distance, long);
  }

  lemma {:induction false} ReadLiteral(c: M.Codes, S: Stream, pos: nat, out: seq<byte>, b: byte)
    requires M.CodesOK(c) && Uses(c.ll, b) && At(S, pos, CodeBits(c.ll, b))
    ensures pos + |CodeBits(c.ll, b)| <= |S|
    ensures R.Symbols(c, S, pos, out) == R.Symbols(c, S, pos + |CodeBits(c.ll, b)|, out + [b])
  {
    hide Acceptable, Decode, CodeBits;
    CodeAt(LENS, c.ll, S, pos, b);
  }

  lemma {:induction false} ReadEnd(c: M.Codes, S: Stream, pos: nat, out: seq<byte>)
    requires M.CodesOK(c) && Uses(c.ll, 256) && At(S, pos, CodeBits(c.ll, 256))
    ensures R.Symbols(c, S, pos, out) == R.Ok(out, pos + |CodeBits(c.ll, 256)|)
  {
    hide Acceptable, Decode, CodeBits;
    CodeAt(LENS, c.ll, S, pos, 256);
  }

  /** The data of a block, in any codes. */
  lemma {:induction false} ReadData(c: M.Codes, S: Stream, pos: nat, out: seq<byte>, ts: seq<Token>)
    requires M.CodesOK(c) && CanAll(c, ts) && TokensOK(out, ts) && At(S, pos, DataBits(c, ts))
    ensures R.Symbols(c, S, pos, out) == R.Ok(Expand(out, ts), pos + |DataBits(c, ts)|)
    decreases |ts|
  {
    hide R.Symbols, M.CodesOK, TokenBits, CodeBits, Apply;
    if ts == [] {
      ReadEnd(c, S, pos, out);
    } else {
      AtParts(S, pos, TokenBits(c, ts[0]), DataBits(c, ts[1..]));
      ReadToken(c, S, pos, out, ts[0]);
      ReadData(c, S, pos + |TokenBits(c, ts[0])|, Apply(out, ts[0]), ts[1..]);
    }
  }

  lemma {:induction false} ReadToken(c: M.Codes, S: Stream, pos: nat, out: seq<byte>, t: Token)
    requires M.CodesOK(c) && Can(c, t) && TokenOK(out, t) && At(S, pos, TokenBits(c, t))
    ensures R.Symbols(c, S, pos, out) == R.Symbols(c, S, pos + |TokenBits(c, t)|, Apply(out, t))
  {
    hide R.Symbols, M.CodesOK;
    match t
    case Literal(b) => ReadLiteral(c, S, pos, out, b);
    case Match(_, _, _) => ReadMatch(c, S, pos, out, t);
  }

  // ---- Stored data (section 3.2.4) ----------------------------------------------------------

  /** Any bits up to the next byte, the length and its complement, and the bytes. */
  function StoredBits(pad: seq<bool>, data: seq<byte>): seq<bool>
    requires |data| < 65536
  {
    pad + (ToLE(16, |data|) + (ToLE(16, 65535 - |data|) + ByteBits(data)))
  }

  lemma {:induction false} BytesThere(S: Stream, pos: nat, data: seq<byte>)
    requires At(S, pos, ByteBits(data))
    ensures R.BytesAt(S, pos, |data|) == data
    decreases |data|
  {
    hide Num, ToLE;
    if data == [] {
    } else {
      AtParts(S, pos, ToLE(8, data[0]), ByteBits(data[1..]));
      Pow2Values();
      NumAt(S, pos, 8, data[0]);
      BytesThere(S, pos + 8, data[1..]);
    }
  }

  lemma {:induction false} ReadStored(S: Stream, pos: nat, out: seq<byte>, pad: seq<bool>, data: seq<byte>)
    requires |data| < 65536 && |pad| < 8 && (pos + |pad|) % 8 == 0 && At(S, pos, StoredBits(pad, data))
    ensures R.StoredBlock(S, pos, out) == R.Ok(out + data, pos + |StoredBits(pad, data)|)
  {
    hide Num, ToLE, ByteBits;
    var p, n := pos + |pad|, |data|;
    var x, y := ToLE(16, n), ToLE(16, 65535 - n);
    AtParts(S, pos, pad, x + (y + ByteBits(data)));
    AtParts(S, p, x, y + ByteBits(data));
    AtParts(S, p + 16, y, ByteBits(data));
    Pow2Values();
    NumAt(S, p, 16, n);
    NumAt(S, p + 16, 16, 65535 - n);
    BytesThere(S, p + 32, data);
  }

  // ---- Dynamic codes (section 3.2.7) ----------------------------------------------------------

  /** One code length, the one before again three to six times, or three to 138 zeros. */
  datatype ClToken = One(l: nat) | Again(n: nat) | Nothing(n: nat)

  predicate ClOK(got: Lens, t: ClToken) {
    match t
    case One(l) => l <= 15
    case Again(n) => 3 <= n <= 6 && got != []
    case Nothing(n) => 3 <= n <= 138
  }

  function ClApply(got: Lens, t: ClToken): Lens
    requires ClOK(got, t)
  {
    match t
    case One(l) => got + [l]
    case Again(n) => got + seq(n, _ => got[|got| - 1])
    case Nothing(n) => got + seq(n, _ => 0)
  }

  predicate ClsOK(got: Lens, ts: seq<ClToken>)
    decreases |ts|
  {
    ts == [] || (ClOK(got, ts[0]) && ClsOK(ClApply(got, ts[0]), ts[1..]))
  }

  function ClExpand(got: Lens, ts: seq<ClToken>): (r: Lens)
    requires ClsOK(got, ts)
    ensures |got| + |ts| <= |r|
    decreases |ts|
  {
    if ts == [] then got else ClExpand(ClApply(got, ts[0]), ts[1..])
  }

  /** The symbol, its extra bits and what they say. */
  function ClSymbol(t: ClToken): nat {
    match t case One(l) => l case Again(_) => 16 case Nothing(n) => if n <= 10 then 17 else 18
  }

  function ClExtra(t: ClToken): seq<bool> {
    match t
    case One(_) => []
    case Again(n) => if n < 3 then [] else ToLE(2, n - 3)
    case Nothing(n) => if n < 3 then [] else if n <= 10 then ToLE(3, n - 3) else ToLE(7, n - 11)
  }

  ghost predicate ClCan(cl: Lens, ts: seq<ClToken>) {
    forall i :: 0 <= i < |ts| ==> Uses(cl, ClSymbol(ts[i]))
  }

  ghost function ClBits(cl: Lens, ts: seq<ClToken>): seq<bool>
    requires ClCan(cl, ts)
  {
    if ts == [] then [] else CodeBits(cl, ClSymbol(ts[0])) + (ClExtra(ts[0]) + ClBits(cl, ts[1..]))
  }

  lemma {:induction false} ReadLength(cl: Lens, S: Stream, pos: nat, total: nat, got: Lens, t: ClToken)
    requires |cl| == 19 && Acceptable(CODES, cl) && ClOK(got, t) && Uses(cl, ClSymbol(t))
    requires |ClApply(got, t)| <= total
    requires At(S, pos, CodeBits(cl, ClSymbol(t)) + ClExtra(t))
    ensures R.CodeLengths(cl, S, pos, total, got) ==
            R.CodeLengths(cl, S, pos + cl[ClSymbol(t)] + |ClExtra(t)|, total, ClApply(got, t))
  {
    hide Acceptable, Decode, CodeBits, Num, ToLE, At;
    var s := ClSymbol(t);
    AtParts(S, pos, CodeBits(cl, s), ClExtra(t));
    CodeAt(CODES, cl, S, pos, s);
    Pow2Values();
    match t
    case One(l) =>
    case Again(n) => NumAt(S, pos + cl[s], 2, n - 3);
    case Nothing(n) => if n <= 10 { NumAt(S, pos + cl[s], 3, n - 3); } else { NumAt(S, pos + cl[s], 7, n - 11); }
  }

  lemma {:induction false} ReadLengths(cl: Lens, S: Stream, pos: nat, got: Lens, ts: seq<ClToken>)
    requires |cl| == 19 && Acceptable(CODES, cl) && ClsOK(got, ts) && ClCan(cl, ts) && At(S, pos, ClBits(cl, ts))
    ensures var r := ClExpand(got, ts);
            R.CodeLengths(cl, S, pos, |r|, got) == R.Lens(r, pos + |ClBits(cl, ts)|)
    decreases |ts|
  {
    hide Acceptable, CodeBits, ClExtra, ClApply, R.CodeLengths;
    if ts == [] {
      AllLengths(cl, S, pos, got);
    } else {
      var t := ts[0];
      var v := CodeBits(cl, ClSymbol(t));
      assert v + (ClExtra(t) + ClBits(cl, ts[1..])) == (v + ClExtra(t)) + ClBits(cl, ts[1..]);
      AtParts(S, pos, v + ClExtra(t), ClBits(cl, ts[1..]));
      ReadLength(cl, S, pos, |ClExpand(got, ts)|, got, t);
      ReadLengths(cl, S, pos + cl[ClSymbol(t)] + |ClExtra(t)|, ClApply(got, t), ts[1..]);
    }
  }

  lemma {:induction false} AllLengths(cl: Lens, S: Stream, pos: nat, got: Lens)
    requires |cl| == 19 && Acceptable(CODES, cl) && pos <= |S|
    ensures R.CodeLengths(cl, S, pos, |got|, got) == R.Lens(got, pos)
  {}

  /** The first n lengths of the code length code, in the order of the format. */
  function ClOrderBits(cl: Lens, i: nat, n: nat): (w: seq<bool>)
    requires |cl| == 19 && i <= n <= 19
    ensures |w| == 3 * (n - i)
    decreases n - i
  {
    if i == n then [] else ToLE(3, cl[M.OrderAt(i)]) + ClOrderBits(cl, i + 1, n)
  }

  /** The lengths of the code length code fit three bits, and those not sent are zero. */
  predicate ClSent(cl: Lens, n: nat) {
    |cl| == 19 && 4 <= n <= 19 && (forall s :: 0 <= s < 19 ==> cl[s] <= 7) &&
    forall i :: n <= i < 19 ==> cl[M.OrderAt(i)] == 0
  }

  function InOrder(cl: Lens, i: nat, n: nat): (r: Lens)
    requires |cl| == 19 && i <= n <= 19
    ensures |r| == n - i && forall k :: 0 <= k < n - i ==> r[k] == cl[M.OrderAt(i + k)]
    decreases n - i
  {
    if i == n then [] else [cl[M.OrderAt(i)]] + InOrder(cl, i + 1, n)
  }

  lemma {:induction false} ReadOrder(cl: Lens, S: Stream, pos: nat, i: nat, n: nat)
    requires ClSent(cl, n) && i <= n && At(S, pos, ClOrderBits(cl, i, n))
    ensures R.ClNumbers(S, pos, n - i) == InOrder(cl, i, n)
    decreases n - i
  {
    hide Num, ToLE, M.OrderAt;
    if i == n {
    } else {
      var l := cl[M.OrderAt(i)];
      AtParts(S, pos, ToLE(3, l), ClOrderBits(cl, i + 1, n));
      Pow2Values();
      NumAt(S, pos, 3, l);
      ReadOrder(cl, S, pos + 3, i + 1, n);
    }
  }

  lemma {:induction false} SentIsRead(cl: Lens, n: nat)
    requires ClSent(cl, n)
    ensures M.ClLens(InOrder(cl, 0, n)) == cl
  {
    var r := M.ClLens(InOrder(cl, 0, n));
    forall s | 0 <= s < 19 ensures r[s] == cl[s] {
      M.OrderRank(s);
      assert M.OrderAt(M.RANK[s]) == s;
    }
  }

  // ---- Blocks and streams -----------------------------------------------------------------------

  /** How a compressor can write a block. For dynamic codes: the literal/length and distance code
      lengths, how they are sent, and the code length code with how many of its lengths are. */
  datatype Block =
    | Plain(pad: seq<bool>, data: seq<byte>)
    | WithFixed(ts: seq<Token>)
    | WithCodes(c: M.Codes, cl: Lens, n: nat, cls: seq<ClToken>, ts: seq<Token>)

  /** A block with its header at pos, after the data out. */
  ghost predicate BlockOK(pos: nat, out: seq<byte>, b: Block) {
    match b
    case Plain(pad, data) => |data| < 65536 && |pad| < 8 && (pos + 3 + |pad|) % 8 == 0
    case WithFixed(ts) => CanAll(M.Fixed(), ts) && TokensOK(out, ts)
    case WithCodes(c, cl, n, cls, ts) =>
      && M.CodesOK(c) && 257 <= |c.ll| <= 286 && 1 <= |c.dl| <= 30
      && Acceptable(CODES, cl) && ClSent(cl, n)
      && ClsOK([], cls) && ClCan(cl, cls) && ClExpand([], cls) == c.ll + c.dl
      && CanAll(c, ts) && TokensOK(out, ts)
  }

  ghost function Written(pos: nat, out: seq<byte>, b: Block): seq<byte>
    requires BlockOK(pos, out, b)
  {
    match b
    case Plain(_, data) => out + data
    case WithFixed(ts) => Expand(out, ts)
    case WithCodes(_, _, _, _, ts) => Expand(out, ts)
  }

  ghost function DynamicBits(c: M.Codes, cl: Lens, n: nat, cls: seq<ClToken>, ts: seq<Token>): seq<bool>
    requires 257 <= |c.ll| && 1 <= |c.dl| && ClSent(cl, n) && ClCan(cl, cls) && CanAll(c, ts)
  {
    ToLE(5, |c.ll| - 257) + (ToLE(5, |c.dl| - 1) + (ToLE(4, n - 4) +
      (ClOrderBits(cl, 0, n) + (ClBits(cl, cls) + DataBits(c, ts)))))
  }

  /** Block b behind its header, which begins at pos: type 0, 1 or 2 and its contents. */
  ghost function BodyBits(pos: nat, out: seq<byte>, b: Block): seq<bool>
    requires BlockOK(pos, out, b)
  {
    match b
    case Plain(pad, data) => ToLE(2, 0) + StoredBits(pad, data)
    case WithFixed(ts) => ToLE(2, 1) + DataBits(M.Fixed(), ts)
    case WithCodes(c, cl, n, cls, ts) => ToLE(2, 2) + DynamicBits(c, cl, n, cls, ts)
  }

  lemma {:induction false} ReadDynamic(c: M.Codes, cl: Lens, n: nat, cls: seq<ClToken>, ts: seq<Token>, S: Stream,
                                       pos: nat, out: seq<byte>)
    requires BlockOK(0, out, WithCodes(c, cl, n, cls, ts)) && At(S, pos, DynamicBits(c, cl, n, cls, ts))
    ensures R.DynamicBlock(S, pos, out) == R.Ok(Expand(out, ts), pos + |DynamicBits(c, cl, n, cls, ts)|)
  {
    hide Num, Acceptable, M.CodesOK, R.Symbols, R.CodeLengths, ToLE, ClBits, DataBits, ClOrderBits, ClExpand, Expand,
         ClSent, TokensOK, CanAll, ClCan, ClsOK, M.ClLens, R.ClNumbers, InOrder, At, Pow2;
    SentBounds(cl, n);
    var a, b, d := ToLE(5, |c.ll| - 257), ToLE(5, |c.dl| - 1), ToLE(4, n - 4);
    var u, v, w := ClOrderBits(cl, 0, n), ClBits(cl, cls), DataBits(c, ts);
    AtParts(S, pos, a, b + (d + (u + (v + w))));
    AtParts(S, pos + 5, b, d + (u + (v + w)));
    AtParts(S, pos + 10, d, u + (v + w));
    AtParts(S, pos + 14, u, v + w);
    var p := pos + 14 + 3 * n;
    AtParts(S, p, v, w);
    Pow2Values();
    NumAt(S, pos, 5, |c.ll| - 257);
    NumAt(S, pos + 5, 5, |c.dl| - 1);
    NumAt(S, pos + 10, 4, n - 4);
    ReadOrder(cl, S, pos + 14, 0, n);
    SentIsRead(cl, n);
    ReadLengths(cl, S, p, [], cls);
    assert (c.ll + c.dl)[..|c.ll|] == c.ll && (c.ll + c.dl)[|c.ll|..] == c.dl;
    ReadData(c, S, p + |v|, out, ts);
  }

  lemma {:induction false} SentBounds(cl: Lens, n: nat)
    requires ClSent(cl, n)
    ensures |cl| == 19 && 4 <= n <= 19
  {}

  lemma {:induction false} ReadBlock(S: Stream, pos: nat, out: seq<byte>, b: Block)
    requires BlockOK(pos, out, b) && At(S, pos + 1, BodyBits(pos, out, b))
    ensures pos + 3 <= |S| && R.Block(Num(S, pos + 1, 2), S, pos + 3, out) ==
            R.Ok(Written(pos, out, b), pos + 1 + |BodyBits(pos, out, b)|)
  {
    hide Num, ToLE, R.Symbols, R.DynamicBlock, R.StoredBlock, DataBits, DynamicBits, StoredBits, M.FixedLengths,
         M.FixedDistances, TokensOK, CanAll, Expand, At, Acceptable, Pow2, M.CodesOK, ClSent, ClExpand, ClsOK, ClCan;
    Pow2Values();
    M.FixedCodesOK();
    match b
    case Plain(pad, data) =>
      AtParts(S, pos + 1, ToLE(2, 0), StoredBits(pad, data));
      NumAt(S, pos + 1, 2, 0);
      ReadStored(S, pos + 3, out, pad, data);
    case WithFixed(ts) =>
      AtParts(S, pos + 1, ToLE(2, 1), DataBits(M.Fixed(), ts));
      NumAt(S, pos + 1, 2, 1);
      ReadData(M.Fixed(), S, pos + 3, out, ts);
    case WithCodes(c, cl, n, cls, ts) =>
      AtParts(S, pos + 1, ToLE(2, 2), DynamicBits(c, cl, n, cls, ts));
      NumAt(S, pos + 1, 2, 2);
      ReadDynamic(c, cl, n, cls, ts, S, pos + 3, out);
  }

  /** Blocks from pos on, after the data out. */
  ghost predicate StreamOK(pos: nat, out: seq<byte>, bs: seq<Block>)
    decreases |bs|
  {
    && bs != [] && BlockOK(pos, out, bs[0])
    && (|bs| > 1 ==> StreamOK(Behind(pos, out, bs[0]), Written(pos, out, bs[0]), bs[1..]))
  }

  ghost function Behind(pos: nat, out: seq<byte>, b: Block): nat
    requires BlockOK(pos, out, b)
  {
    pos + 1 + |BodyBits(pos, out, b)|
  }

  /** The data that the blocks stand for, and their bits: before each the bit that says whether
      it is the last. */
  ghost function Data(pos: nat, out: seq<byte>, bs: seq<Block>): seq<byte>
    requires StreamOK(pos, out, bs)
    decreases |bs|
  {
    if |bs| == 1 then Written(pos, out, bs[0])
    else Data(Behind(pos, out, bs[0]), Written(pos, out, bs[0]), bs[1..])
  }

  ghost function StreamBits(pos: nat, out: seq<byte>, bs: seq<Block>): seq<bool>
    requires StreamOK(pos, out, bs)
    decreases |bs|, 1
  {
    [|bs| == 1] + (BodyBits(pos, out, bs[0]) + OtherBits(pos, out, bs))
  }

  ghost function OtherBits(pos: nat, out: seq<byte>, bs: seq<Block>): seq<bool>
    requires StreamOK(pos, out, bs)
    decreases |bs|, 0
  {
    if |bs| == 1 then [] else StreamBits(Behind(pos, out, bs[0]), Written(pos, out, bs[0]), bs[1..])
  }

  /** S from pos on is what a compressor may write as bs. */
  ghost predicate Encodes(S: Stream, pos: nat, out: seq<byte>, bs: seq<Block>) {
    StreamOK(pos, out, bs) && At(S, pos, StreamBits(pos, out, bs))
  }

  /** Decoding gives back what was encoded, whatever the compressor chose. */
  lemma {:induction false} RoundTrip(S: Stream, pos: nat, out: seq<byte>, bs: seq<Block>)
    requires Encodes(S, pos, out, bs)
    ensures R.Blocks(S, pos, out) == R.Ok(Data(pos, out, bs), Align(pos + |StreamBits(pos, out, bs)|))
    decreases |bs|
  {
    hide BlockOK, BodyBits, Written, R.Block, Num, At, Align;
    var b := bs[0];
    var w, rest := BodyBits(pos, out, b), OtherBits(pos, out, bs);
    AtParts(S, pos, [|bs| == 1], w + rest);
    FirstBit(S, pos, |bs| == 1);
    AtParts(S, pos + 1, w, rest);
    ReadBlock(S, pos, out, b);
    if |bs| == 1 {
    } else {
      RoundTrip(S, Behind(pos, out, b), Written(pos, out, b), bs[1..]);
    }
  }

  lemma {:induction false} FirstBit(S: seq<bool>, pos: nat, b: bool)
    requires At(S, pos, [b])
    ensures pos < |S| && S[pos] == b
  {
    assert S[pos] == S[pos..pos + 1][0];
  }
}
