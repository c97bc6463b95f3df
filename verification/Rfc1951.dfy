/** A reference decoder for raw deflate data, following section 3.2 of RFC 1951 by
    recursion over the bit string. It has no phases and no notion of stopping. */
module Rfc1951 {
  import opened Bits
  import opened Canonical
  import opened Tables
  import opened Streams
  import M = Machine

  /** Data written so far and the bits taken, or failure: the data is not valid or
      ends too soon. */
  datatype Result = Ok(out: seq<byte>, pos: nat) | Fail

  datatype LensResult = Lens(lens: Lens, pos: nat) | NoLens

  // ---- Stored blocks (section 3.2.4) -------------------------------------------------

  /** n bytes from the byte-aligned position pos. */
  function BytesAt(S: Stream, pos: nat, n: nat): (r: seq<byte>)
    requires pos + 8 * n <= |S|
    ensures |r| == n
    decreases n
  {
    if n == 0 then []
    else
      NumBound(S, pos, 8);
      Pow2Values();
      [Num(S, pos, 8)] + BytesAt(S, pos + 8, n - 1)
  }

  function StoredBlock(S: Stream, pos: nat, out: seq<byte>): (r: Result)
    requires pos <= |S|
    ensures r.Ok? ==> pos <= r.pos <= |S| && out <= r.out
  {
    var p := Align(pos);
    if p + 32 > |S| then Fail
    else
      var len, nlen := Num(S, p, 16), Num(S, p + 16, 16);
      if len + nlen != 0xFFFF || p + 32 + 8 * len > |S| then Fail
      else Ok(out + BytesAt(S, p + 32, len), p + 32 + 8 * len)
  }

  // ---- Compressed data (section 3.2.3) ------------------------------------------------

  /** The string that a length and a distance stand for, byte by byte, so that it may
      overlap itself. */
  function CopyMatch(out: seq<byte>, length: nat, distance: nat): (r: seq<byte>)
    requires 1 <= distance <= |out|
    ensures |r| == |out| + length && out <= r
    decreases length
  {
    if length == 0 then out
    else CopyMatch(out + [out[|out| - distance]], length - 1, distance)
  }

  ghost function Symbols(c: M.Codes, S: Stream, pos: nat, out: seq<byte>): (r: Result)
    requires M.CodesOK(c) && pos <= |S|
    ensures r.Ok? ==> pos <= r.pos <= |S| && out <= r.out
    decreases |S| - pos
  {
    M.DecodeUses(LENS, c.ll, S[pos..]);
    match Decode(c.ll, S[pos..])
    case Found(s, n) =>
      if s < 256 then Symbols(c, S, pos + n, out + [s])
      else if s == 256 then Ok(out, pos + n)
      else if s >= 286 || pos + n + LenExtra(s) > |S| then Fail
      else Pair(c, S, pos + n + LenExtra(s), out, LenBase(s) + Num(S, pos + n, LenExtra(s)))
    case _ => Fail
  }

  /** The distance of a match of the given length, and what follows. */
  ghost function Pair(c: M.Codes, S: Stream, pos: nat, out: seq<byte>, length: nat): (r: Result)
    requires M.CodesOK(c) && pos <= |S|
    ensures r.Ok? ==> pos <= r.pos <= |S| && out <= r.out
    decreases |S| - pos
  {
    M.DecodeUses(DISTS, c.dl, S[pos..]);
    match Decode(c.dl, S[pos..])
    case Found(d, n) =>
      if d >= 30 || pos + n + DistExtra(d) > |S| then Fail
      else
        var distance := DistBase(d) + Num(S, pos + n, DistExtra(d));
        if distance > |out| then Fail
        else Symbols(c, S, pos + n + DistExtra(d), CopyMatch(out, length, distance))
    case _ => Fail
  }

  // ---- Dynamic codes (section 3.2.7) ---------------------------------------------------

  /** n three-bit numbers. */
  function ClNumbers(S: Stream, pos: nat, n: nat): (r: Lens)
    requires pos + 3 * n <= |S|
    ensures |r| == n
    decreases n
  {
    if n == 0 then []
    else
      NumBound(S, pos, 3);
      Pow2Values();
      [Num(S, pos, 3)] + ClNumbers(S, pos + 3, n - 1)
  }

  /** Code lengths until there are total of them, got being those before pos. */
  ghost function CodeLengths(cl: Lens, S: Stream, pos: nat, total: nat, got: Lens): (r: LensResult)
    requires Acceptable(CODES, cl) && |cl| == 19 && pos <= |S| && |got| <= total
    ensures r.Lens? ==> pos <= r.pos <= |S| && |r.lens| == total
    decreases |S| - pos
  {
    if |got| == total then Lens(got, pos)
    else
      M.DecodeUses(CODES, cl, S[pos..]);
      match M.DecodeCl(cl, S[pos..])
      case Found(s, n) =>
        if s < 16 then CodeLengths(cl, S, pos + n, total, got + [s])
        else if pos + n + M.RepeatBits(s) > |S| || (s == 16 && got == []) then NoLens
        else
          var r := M.RepeatBase(s) + Num(S, pos + n, M.RepeatBits(s));
          var v := if s == 16 then got[|got| - 1] else 0;
          if |got| + r > total then NoLens
          else CodeLengths(cl, S, pos + n + M.RepeatBits(s), total, got + M.Repeat(v, r))
      case _ => NoLens
  }

  ghost function DynamicBlock(S: Stream, pos: nat, out: seq<byte>): (r: Result)
    requires pos <= |S|
    ensures r.Ok? ==> pos <= r.pos <= |S| && out <= r.out
  {
    hide Num, Acceptable, M.CodesOK, Symbols;
    if pos + 14 > |S| then Fail
    else
      var hlit, hdist, hclen := Num(S, pos, 5) + 257, Num(S, pos + 5, 5) + 1, Num(S, pos + 10, 4) + 4;
      if hlit > 286 || hdist > 30 || pos + 14 + 3 * hclen > |S| then Fail
      else
        var cl := M.ClLens(ClNumbers(S, pos + 14, hclen));
        if !Acceptable(CODES, cl) then Fail
        else match CodeLengths(cl, S, pos + 14 + 3 * hclen, hlit + hdist, [])
          case NoLens => Fail
          case Lens(lens, p) =>
            var c := M.Codes(lens[..hlit], lens[hlit..]);
            if M.CodesOK(c) then Symbols(c, S, p, out) else Fail
  }

  // ---- Blocks (section 3.2.3) ------------------------------------------------------------

  ghost function Block(btype: nat, S: Stream, pos: nat, out: seq<byte>): (r: Result)
    requires pos <= |S|
    ensures r.Ok? ==> pos <= r.pos <= |S| && out <= r.out
  {
    M.FixedOK();
    match btype
    case 0 => StoredBlock(S, pos, out)
    case 1 => Symbols(M.Fixed(), S, pos, out)
    case 2 => DynamicBlock(S, pos, out)
    case _ => Fail
  }

  /** The data of the blocks from pos on, up to the byte boundary after the last. */
  ghost function Blocks(S: Stream, pos: nat, out: seq<byte>): Result
    requires pos <= |S|
    decreases |S| - pos
  {
    if pos + 3 > |S| then Fail
    else match Block(Num(S, pos + 1, 2), S, pos + 3, out)
      case Fail => Fail
      case Ok(o, p) => if S[pos] then Ok(o, Align(p)) else Blocks(S, p, o)
  }
}
