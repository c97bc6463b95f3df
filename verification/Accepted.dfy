/** The converse: whatever the reference decoder accepts, some compressor may have written, by
    the choices that Encoder allows. So it accepts exactly the format. */
module Accepted {
  import opened Bits
  import opened Canonical
  import opened Tables
  import opened Streams
  import opened Encoder
  import M = Machine
  import R = Rfc1951

  // ---- Reading bits back --------------------------------------------------------------------

  lemma {:induction false} AtJoin(S: seq<bool>, pos: nat, v: seq<bool>, w: seq<bool>)
    requires At(S, pos, v) && At(S, pos + |v|, w)
    ensures At(S, pos, v + w)
  {
    assert S[pos..pos + |v + w|] == S[pos..pos + |v|] + S[pos + |v|..pos + |v| + |w|];
  }

  lemma {:induction false} ToLEOfLE(w: seq<bool>)
    ensures ToLE(|w|, LE(w)) == w
  {
    if w == [] {
    } else {
      DivModUnique(LE(w), 2, LE(w[1..]), Bit(w[0]));
      ToLEOfLE(w[1..]);
      assert w == [w[0]] + w[1..];
    }
  }

  lemma {:induction false} NumIsThere(S: seq<bool>, pos: nat, n: nat)
    requires pos + n <= |S|
    ensures At(S, pos, ToLE(n, Num(S, pos, n))) && Num(S, pos, n) < Pow2(n)
  {
    ToLEOfLE(S[pos..pos + n]);
    NumBound(S, pos, n);
  }

  lemma {:induction false} CodeIsThere(lens: Lens, S: seq<bool>, pos: nat)
    requires pos <= |S| && Decode(lens, S[pos..]).Found?
    ensures var Found(s, n) := Decode(lens, S[pos..]);
      Uses(lens, s) && n == lens[s] && At(S, pos, CodeBits(lens, s))
  {
    hide Decode, CodeBits;
    FoundMatches(lens, S[pos..]);
    var s := Decode(lens, S[pos..]).s;
    assert CodeBits(lens, s) == S[pos..][..lens[s]] == S[pos..pos + lens[s]];
  }

  // ---- Data -----------------------------------------------------------------------------------

  lemma {:induction false} BasesRise(s: nat, u: nat)
    requires 257 <= s < u <= 284
    ensures LenBase(s) + Pow2(LenExtra(s)) <= LenBase(u)
    decreases u - s
  {
    hide LenBase, LenExtra;
    LengthsTile(s);
    if s + 1 == u {
    } else {
      BasesRise(s + 1, u);
    }
  }

  lemma {:induction false} SymbolFound(length: nat, s: nat, u: nat)
    requires 257 <= s <= u <= 284 && LenBase(s) <= length <= 258
    requires LenBase(u) <= length < LenBase(u) + Pow2(LenExtra(u))
    ensures LenSymbol(length, s) == u
    decreases u - s
  {
    hide LenBase, LenExtra;
    LengthsTile(257);
    if s == u {
    } else {
      BasesRise(s, u);
      LengthsTile(s);
      SymbolFound(length, s + 1, u);
    }
  }

  /** The length that a symbol and its extra bits say, written with that symbol. */
  lemma {:induction false} LengthOf(s: nat, x: nat) returns (long: bool)
    requires 257 <= s < 286 && x < Pow2(LenExtra(s))
    ensures 3 <= LenBase(s) + x <= 258 && LenOf(LenBase(s) + x, long) == s
    ensures long ==> LenBase(s) + x == 258
  {
    hide LenBase, LenExtra, Pow2, LenSymbol;
    LengthsTile(257);
    LengthMax(s);
    long := s == 284 && LenBase(s) + x == 258;
    if s == 285 {
      LastSymbol();
    } else {
      LowestLength(s);
      SymbolFound(LenBase(s) + x, 257, s);
    }
  }

  lemma {:induction false} LastSymbol()
    ensures LenBase(285) == 258 && LenExtra(285) == 0 && Pow2(0) == 1
  {}

  lemma {:induction false} LowestLength(s: nat)
    requires 257 <= s <= 284
    ensures 3 <= LenBase(s) && (s < 284 ==> LenBase(s) + Pow2(LenExtra(s)) <= 258)
  {
    Pow2Values();
    LengthsTile(257);
    if s < 284 { BasesRise(s, 284); }
  }

  lemma {:induction false} DistsRise(d: nat, e: nat)
    requires d < e <= 29
    ensures DistBase(d) + Pow2(DistExtra(d)) <= DistBase(e)
    decreases e - d
  {
    hide DistBase, DistExtra;
    DistancesTile(d);
    if d + 1 == e {
    } else {
      DistsRise(d + 1, e);
    }
  }

  lemma {:induction false} DistFound(distance: nat, d: nat, e: nat)
    requires d <= e <= 29 && DistBase(d) <= distance <= 32768
    requires DistBase(e) <= distance < DistBase(e) + Pow2(DistExtra(e))
    ensures DistSymbol(distance, d) == e
    decreases e - d
  {
    hide DistBase, DistExtra;
    if d == e {
    } else {
      DistsRise(d, e);
      DistancesTile(d);
      DistFound(distance, d + 1, e);
    }
  }

  lemma {:induction false} DistanceOf(d: nat, y: nat)
    requires d < 30 && y < Pow2(DistExtra(d))
    ensures 1 <= DistBase(d) + y <= 32768 && DistOf(DistBase(d) + y) == d
  {
    hide DistBase, DistExtra;
    DistanceMax(d);
    DistancesTile(0);
    if d > 0 { DistsRise(0, d); }
    DistFound(DistBase(d) + y, 0, d);
  }

  /** The data of a block that decodes is written by tokens. */
  lemma {:induction false} DataIsWritten(c: M.Codes, S: Stream, pos: nat, out: seq<byte>) returns (ts: seq<Token>)
    requires M.CodesOK(c) && pos <= |S| && R.Symbols(c, S, pos, out).Ok?
    ensures CanAll(c, ts) && TokensOK(out, ts) && At(S, pos, DataBits(c, ts))
    decreases |S| - pos
  {
    hide Acceptable, Decode, CodeBits, Num, R.CopyMatch, TokenBits, Apply, Can;
    M.DecodeUses(LENS, c.ll, S[pos..]);
    CodeIsThere(c.ll, S, pos);
    var Found(s, n) := Decode(c.ll, S[pos..]);
    if s == 256 {
      ts := [];
    } else {
      var t, next := TokenIsWritten(c, S, pos, out);
      var rest := DataIsWritten(c, S, next, Apply(out, t));
      ts := [t] + rest;
      assert ts[1..] == rest;
      AtJoin(S, pos, TokenBits(c, t), DataBits(c, rest));
    }
  }

  lemma {:induction false} TokenIsWritten(c: M.Codes, S: Stream, pos: nat, out: seq<byte>) returns (t: Token, next: nat)
    requires M.CodesOK(c) && pos <= |S| && R.Symbols(c, S, pos, out).Ok?
    requires Decode(c.ll, S[pos..]).Found? && Decode(c.ll, S[pos..]).s != 256
    ensures Can(c, t) && TokenOK(out, t) && At(S, pos, TokenBits(c, t))
    ensures pos < next == pos + |TokenBits(c, t)| <= |S| && R.Symbols(c, S, next, Apply(out, t)).Ok?
  {
    hide Acceptable, Decode, CodeBits, R.Symbols;
    M.DecodeUses(LENS, c.ll, S[pos..]);
    CodeIsThere(c.ll, S, pos);
    var Found(s, n) := Decode(c.ll, S[pos..]);
    if s < 256 {
      t := Literal(s);
    } else {
      t := MatchIsWritten(c, S, pos, out);
    }
    next := pos + |TokenBits(c, t)|;
    ReadToken(c, S, pos, out, t);
  }

  lemma {:induction false} MatchIsWritten(c: M.Codes, S: Stream, pos: nat, out: seq<byte>) returns (t: Token)
    requires M.CodesOK(c) && pos <= |S| && R.Symbols(c, S, pos, out).Ok?
    requires Decode(c.ll, S[pos..]).Found? && Decode(c.ll, S[pos..]).s > 256
    ensures t.Match? && Can(c, t) && TokenOK(out, t) && At(S, pos, TokenBits(c, t)) && |TokenBits(c, t)| > 0
  {
    hide Acceptable, Decode, CodeBits, Num, R.CopyMatch, LenBase, LenExtra, DistBase, DistExtra, R.Pair, LenOf, DistOf,
         ToLE;
    M.DecodeUses(LENS, c.ll, S[pos..]);
    CodeIsThere(c.ll, S, pos);
    var Found(s, n) := Decode(c.ll, S[pos..]);
    var p := pos + n;
    NumIsThere(S, p, LenExtra(s));
    var x := Num(S, p, LenExtra(s));
    var long := LengthOf(s, x);
    var length := LenBase(s) + x;
    var q := p + LenExtra(s);
    var distance := DistanceIsWritten(c, S, q, out, length);
    t := Match(length, distance, long);
    AtJoin(S, pos, CodeBits(c.ll, s), ToLE(LenExtra(s), x));
    AtJoin(S, pos, LenBits(c, length, long), DistBits(c, distance));
  }

  lemma {:induction false} DistanceIsWritten(c: M.Codes, S: Stream, pos: nat, out: seq<byte>, length: nat)
    returns (distance: nat)
    requires M.CodesOK(c) && pos <= |S| && R.Pair(c, S, pos, out, length).Ok?
    ensures 1 <= distance <= 32768 && distance <= |out| && Uses(c.dl, DistOf(distance))
    ensures At(S, pos, DistBits(c, distance))
  {
    hide Acceptable, Decode, CodeBits, Num, R.CopyMatch, DistBase, DistExtra, R.Symbols, DistOf, ToLE;
    M.DecodeUses(DISTS, c.dl, S[pos..]);
    CodeIsThere(c.dl, S, pos);
    var Found(d, n) := Decode(c.dl, S[pos..]);
    NumIsThere(S, pos + n, DistExtra(d));
    var y := Num(S, pos + n, DistExtra(d));
    DistanceOf(d, y);
    distance := DistBase(d) + y;
    AtJoin(S, pos, CodeBits(c.dl, d), ToLE(DistExtra(d), y));
  }

  // ---- Stored data ------------------------------------------------------------------------------

  lemma {:induction false} BytesAreThere(S: Stream, pos: nat, n: nat)
    requires pos + 8 * n <= |S|
    ensures At(S, pos, ByteBits(R.BytesAt(S, pos, n)))
    decreases n
  {
    hide Num, ToLE;
    if n == 0 {
    } else {
      NumIsThere(S, pos, 8);
      BytesAreThere(S, pos + 8, n - 1);
      var data := R.BytesAt(S, pos, n);
      AtJoin(S, pos, ToLE(8, data[0]), ByteBits(data[1..]));
    }
  }

  lemma {:induction false} StoredIsWritten(S: Stream, pos: nat, out: seq<byte>)
    returns (pad: seq<bool>, data: seq<byte>)
    requires pos <= |S| && R.StoredBlock(S, pos, out).Ok?
    ensures |data| < 65536 && |pad| < 8 && (pos + |pad|) % 8 == 0 && At(S, pos, StoredBits(pad, data))
  {
    hide Num, ToLE, ByteBits;
    var p := Align(pos);
    Pow2Values();
    NumIsThere(S, p, 16);
    NumIsThere(S, p + 16, 16);
    var n := Num(S, p, 16);
    pad, data := S[pos..p], R.BytesAt(S, p + 32, n);
    BytesAreThere(S, p + 32, n);
    var x, y := ToLE(16, n), ToLE(16, 65535 - n);
    AtJoin(S, p + 16, y, ByteBits(data));
    AtJoin(S, p, x, y + ByteBits(data));
    AtJoin(S, pos, pad, x + (y + ByteBits(data)));
  }

  // ---- Dynamic codes ------------------------------------------------------------------------------

  /** One code length symbol that decodes. */
  lemma {:induction false} LengthIsWritten(cl: Lens, S: Stream, pos: nat, total: nat, got: Lens)
    returns (t: ClToken, next: nat)
    requires |cl| == 19 && Acceptable(CODES, cl) && !Empty(cl) && pos <= |S| && |got| < total
    requires R.CodeLengths(cl, S, pos, total, got).Lens?
    ensures ClOK(got, t) && Uses(cl, ClSymbol(t)) && At(S, pos, CodeBits(cl, ClSymbol(t)) + ClExtra(t))
    ensures pos < next == pos + cl[ClSymbol(t)] + |ClExtra(t)| <= |S| && |ClApply(got, t)| <= total
    ensures R.CodeLengths(cl, S, pos, total, got) == R.CodeLengths(cl, S, next, total, ClApply(got, t))
  {
    hide Decode, CodeBits, Num, ToLE, At, Acceptable, Empty, Pow2;
    M.DecodeUses(CODES, cl, S[pos..]);
    NotInvalid(cl, S[pos..]);
    CodeIsThere(cl, S, pos);
    var Found(s, n) := Decode(cl, S[pos..]);
    Pow2Values();
    if s < 16 {
      t := One(s);
      AtEnd(S, pos + n);
    } else {
      NumIsThere(S, pos + n, M.RepeatBits(s));
      var x := Num(S, pos + n, M.RepeatBits(s));
      t := if s == 16 then Again(x + 3) else if s == 17 then Nothing(x + 3) else Nothing(x + 11);
    }
    next := pos + n + |ClExtra(t)|;
    AtJoin(S, pos, CodeBits(cl, s), ClExtra(t));
  }

  lemma {:induction false} NotInvalid(cl: Lens, w: seq<bool>)
    requires Acceptable(CODES, cl) && !Empty(cl)
    ensures !Decode(cl, w).Invalid?
  {}

  lemma {:induction false} LengthsAreWritten(cl: Lens, S: Stream, pos: nat, total: nat, got: Lens)
    returns (ts: seq<ClToken>)
    requires |cl| == 19 && Acceptable(CODES, cl) && !Empty(cl) && pos <= |S| && |got| <= total
    requires R.CodeLengths(cl, S, pos, total, got).Lens?
    ensures ClsOK(got, ts) && ClCan(cl, ts) && At(S, pos, ClBits(cl, ts))
    ensures R.CodeLengths(cl, S, pos, total, got) == R.Lens(ClExpand(got, ts), pos + |ClBits(cl, ts)|)
    decreases |S| - pos
  {
    hide Acceptable, Decode, CodeBits, Num, ClExtra, ClApply, R.CodeLengths, Empty;
    if |got| == total {
      ts := [];
      AllLengths(cl, S, pos, got);
    } else {
      var t, next := LengthIsWritten(cl, S, pos, total, got);
      var rest := LengthsAreWritten(cl, S, next, total, ClApply(got, t));
      ts := [t] + rest;
      assert ts[1..] == rest;
      var v := CodeBits(cl, ClSymbol(t));
      AtJoin(S, pos, v + ClExtra(t), ClBits(cl, rest));
      assert v + (ClExtra(t) + ClBits(cl, rest)) == (v + ClExtra(t)) + ClBits(cl, rest);
    }
  }

  lemma {:induction false} OrderIsWritten(cl: Lens, S: Stream, pos: nat, i: nat, n: nat, got: Lens)
    requires |cl| == 19 && i <= n <= 19 && pos + 3 * (n - i) <= |S| && got == R.ClNumbers(S, pos, n - i)
    requires forall k :: 0 <= k < n - i ==> got[k] == cl[M.OrderAt(i + k)]
    ensures At(S, pos, ClOrderBits(cl, i, n))
    ensures forall k :: 0 <= k < n - i ==> got[k] <= 7
    decreases n - i
  {
    hide Num, ToLE, M.OrderAt, At, Pow2, R.ClNumbers;
    if i == n {
      AtEnd(S, pos);
    } else {
      Pow2Values();
      NumIsThere(S, pos, 3);
      var rest := R.ClNumbers(S, pos + 3, n - i - 1);
      OneNumber(S, pos, n - i);
      assert got[0] == cl[M.OrderAt(i + 0)];
      forall k | 0 <= k < n - i - 1 ensures rest[k] == cl[M.OrderAt(i + 1 + k)] {
        assert rest[k] == got[k + 1] == cl[M.OrderAt(i + (k + 1))];
      }
      OrderIsWritten(cl, S, pos + 3, i + 1, n, rest);
      AtJoin(S, pos, ToLE(3, cl[M.OrderAt(i)]), ClOrderBits(cl, i + 1, n));
    }
  }

  lemma {:induction false} OneNumber(S: Stream, pos: nat, n: nat)
    requires n > 0 && pos + 3 * n <= |S|
    ensures R.ClNumbers(S, pos, n) == [Num(S, pos, 3)] + R.ClNumbers(S, pos + 3, n - 1)
  {
    hide Num;
  }

  /** The lengths that are read are those that were sent. */
  lemma {:induction false} SentAre(S: Stream, pos: nat, n: nat)
    requires 4 <= n <= 19 && pos + 3 * n <= |S|
    ensures var cl := M.ClLens(R.ClNumbers(S, pos, n)); ClSent(cl, n) && At(S, pos, ClOrderBits(cl, 0, n))
  {
    hide R.ClNumbers;
    var got := R.ClNumbers(S, pos, n);
    var cl := M.ClLens(got);
    forall i | 0 <= i < 19 ensures cl[M.OrderAt(i)] == if i < n then got[i] else 0 { M.OrderRank(i); }
    OrderIsWritten(cl, S, pos, 0, n, got);
  }

  lemma {:induction false} NoDataWithoutCodes(c: M.Codes, S: Stream, pos: nat, out: seq<byte>)
    requires M.CodesOK(c) && pos <= |S| && Empty(c.ll)
    ensures !R.Symbols(c, S, pos, out).Ok?
  {
    M.DecodeUses(LENS, c.ll, S[pos..]);
  }

  /** A code length code without symbols says nothing but zeros. */
  lemma {:induction false} OnlyZeros(cl: Lens, S: Stream, pos: nat, total: nat, got: Lens)
    requires |cl| == 19 && Acceptable(CODES, cl) && Empty(cl) && pos <= |S| && |got| <= total && Empty(got)
    requires R.CodeLengths(cl, S, pos, total, got).Lens?
    ensures Empty(R.CodeLengths(cl, S, pos, total, got).lens)
    decreases |S| - pos
  {
    hide Acceptable;
    if |got| == total {
    } else {
      M.DecodeUses(CODES, cl, S[pos..]);
      OnlyZeros(cl, S, pos + 1, total, got + [0]);
    }
  }

  lemma {:induction false} DynamicIsWritten(S: Stream, pos: nat, out: seq<byte>)
    returns (c: M.Codes, cl: Lens, n: nat, cls: seq<ClToken>, ts: seq<Token>)
    requires pos <= |S| && R.DynamicBlock(S, pos, out).Ok?
    ensures BlockOK(0, out, WithCodes(c, cl, n, cls, ts)) && At(S, pos, DynamicBits(c, cl, n, cls, ts))
  {
    hide Num, Acceptable, M.CodesOK, R.Symbols, R.CodeLengths, ToLE, ClBits, DataBits, ClOrderBits, ClExpand, ClSent,
         TokensOK, CanAll, ClCan, ClsOK, M.ClLens, R.ClNumbers, Empty, At, Pow2;
    NumIsThere(S, pos, 5);
    NumIsThere(S, pos + 5, 5);
    NumIsThere(S, pos + 10, 4);
    Pow2Values();
    var hlit, hdist := Num(S, pos, 5) + 257, Num(S, pos + 5, 5) + 1;
    n := Num(S, pos + 10, 4) + 4;
    var p := pos + 14 + 3 * n;
    SentAre(S, pos + 14, n);
    cl := M.ClLens(R.ClNumbers(S, pos + 14, n));
    var r := R.CodeLengths(cl, S, p, hlit + hdist, []);
    c := M.Codes(r.lens[..hlit], r.lens[hlit..]);
    if Empty(cl) {
      ZerosOnly(cl, S, p, hlit, hdist);
      NoDataWithoutCodes(c, S, r.pos, out);
    }
    cls := LengthsAreWritten(cl, S, p, hlit + hdist, []);
    ts := DataIsWritten(c, S, r.pos, out);
    SixParts(S, pos, ToLE(5, hlit - 257), ToLE(5, hdist - 1), ToLE(4, n - 4), ClOrderBits(cl, 0, n), ClBits(cl, cls),
             DataBits(c, ts));
  }

  lemma {:induction false} SixParts(S: seq<bool>, pos: nat, a: seq<bool>, b: seq<bool>, d: seq<bool>, u: seq<bool>,
                                    v: seq<bool>, w: seq<bool>)
    requires At(S, pos, a) && At(S, pos + |a|, b) && At(S, pos + |a| + |b|, d) && At(S, pos + |a| + |b| + |d|, u)
    requires var p := pos + |a| + |b| + |d| + |u|; At(S, p, v) && At(S, p + |v|, w)
    ensures At(S, pos, a + (b + (d + (u + (v + w)))))
  {
    hide At;
    var p := pos + |a| + |b| + |d|;
    AtJoin(S, p + |u|, v, w);
    AtJoin(S, p, u, v + w);
    AtJoin(S, pos + |a| + |b|, d, u + (v + w));
    AtJoin(S, pos + |a|, b, d + (u + (v + w)));
    AtJoin(S, pos, a, b + (d + (u + (v + w))));
  }

  lemma {:induction false} ZerosOnly(cl: Lens, S: Stream, pos: nat, hlit: nat, hdist: nat)
    requires |cl| == 19 && Acceptable(CODES, cl) && Empty(cl) && pos <= |S|
    requires R.CodeLengths(cl, S, pos, hlit + hdist, []).Lens?
    ensures Empty(R.CodeLengths(cl, S, pos, hlit + hdist, []).lens[..hlit])
  {
    hide R.CodeLengths, Acceptable;
    OnlyZeros(cl, S, pos, hlit + hdist, []);
  }

  // ---- Blocks and streams -------------------------------------------------------------------------

  lemma {:induction false} BlockIsWritten(S: Stream, pos: nat, out: seq<byte>) returns (b: Block)
    requires pos + 3 <= |S| && R.Block(Num(S, pos + 1, 2), S, pos + 3, out).Ok?
    ensures BlockOK(pos, out, b) && At(S, pos + 1, BodyBits(pos, out, b))
  {
    hide Num, ToLE, R.Symbols, R.DynamicBlock, R.StoredBlock, DataBits, DynamicBits, StoredBits, M.FixedLengths,
         M.FixedDistances, TokensOK, CanAll;
    M.FixedCodesOK();
    NumIsThere(S, pos + 1, 2);
    var btype := Num(S, pos + 1, 2);
    if btype == 0 {
      var pad, data := StoredIsWritten(S, pos + 3, out);
      b := Plain(pad, data);
      AtJoin(S, pos + 1, ToLE(2, 0), StoredBits(pad, data));
    } else if btype == 1 {
      var ts := DataIsWritten(M.Fixed(), S, pos + 3, out);
      b := WithFixed(ts);
      AtJoin(S, pos + 1, ToLE(2, 1), DataBits(M.Fixed(), ts));
    } else {
      var c, cl, n, cls, ts := DynamicIsWritten(S, pos + 3, out);
      b := WithCodes(c, cl, n, cls, ts);
      AtJoin(S, pos + 1, ToLE(2, 2), DynamicBits(c, cl, n, cls, ts));
    }
  }

  /** Every stream that decodes is one that a compressor may write. */
  lemma {:induction false} StreamIsWritten(S: Stream, pos: nat, out: seq<byte>) returns (bs: seq<Block>)
    requires pos <= |S| && R.Blocks(S, pos, out).Ok?
    ensures Encodes(S, pos, out, bs)
    decreases |S| - pos
  {
    hide BlockOK, BodyBits, Written, R.Block, Num, At;
    var b := BlockIsWritten(S, pos, out);
    ReadBlock(S, pos, out, b);
    ThereIs(S, pos);
    bs := [b];
    if !S[pos] {
      var rest := StreamIsWritten(S, Behind(pos, out, b), Written(pos, out, b));
      bs := [b] + rest;
      assert bs[1..] == rest;
    }
    assert bs[0] == b;
    AtEnd(S, pos + 1 + |BodyBits(pos, out, b)|);
    AtJoin(S, pos + 1, BodyBits(pos, out, b), OtherBits(pos, out, bs));
    AtJoin(S, pos, [|bs| == 1], BodyBits(pos, out, b) + OtherBits(pos, out, bs));
  }

  lemma {:induction false} ThereIs(S: seq<bool>, pos: nat)
    requires pos < |S|
    ensures At(S, pos, [S[pos]])
  {
    assert S[pos..pos + 1] == [S[pos]];
  }

  lemma {:induction false} AtEnd(S: seq<bool>, pos: nat)
    requires pos <= |S|
    ensures At(S, pos, [])
  {}

  /** The reference decoder accepts exactly the streams that a compressor may write, and what
      it gives is the data they stand for. */
  lemma {:induction false} AcceptsFormat(S: Stream)
    ensures R.Blocks(S, 0, []).Ok? <==> exists bs: seq<Block> :: Encodes(S, 0, [], bs)
    ensures forall bs: seq<Block> :: Encodes(S, 0, [], bs) ==>
      R.Blocks(S, 0, []) == R.Ok(Data(0, [], bs), Align(|StreamBits(0, [], bs)|))
  {
    hide R.Blocks, StreamOK, StreamBits, Data, Align, At;
    forall bs: seq<Block> | Encodes(S, 0, [], bs)
      ensures R.Blocks(S, 0, []) == R.Ok(Data(0, [], bs), Align(|StreamBits(0, [], bs)|)) {
      RoundTrip(S, 0, [], bs);
    }
    if R.Blocks(S, 0, []).Ok? { var bs := StreamIsWritten(S, 0, []); }
  }
}
