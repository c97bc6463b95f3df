/** libgzip/inflate.c: syncsearch, which looks for the four bytes that an empty stored
    block leaves, over input that may come in pieces of any size. */
module SyncSearch {
  import opened Bits
  import opened Streams
  import R = Rfc1951

  const PATTERN: seq<byte> := [0, 0, 0xff, 0xff]

  /** It is what an empty stored block is at a byte boundary, and nothing else is. */
  lemma {:induction false} PatternIsEmptyBlock(s: seq<byte>, out: seq<byte>)
    requires |s| == 4
    ensures R.StoredBlock(ByteBits(s), 0, out) == R.Ok(out, 32) <==> s == PATTERN
  {
    hide ByteBits, Num;
    var S := ByteBits(s);
    assert s[0..2] == [s[0], s[1]] && s[2..4] == [s[2], s[3]];
    TwoBytes(s, 0);
    TwoBytes(s, 2);
    assert Align(0) == 0;
    if Num(S, 0, 16) == 0 { assert out + R.BytesAt(S, 32, 0) == out; }
  }

  lemma {:induction false} TwoBytes(s: seq<byte>, i: nat)
    requires i + 2 <= |s|
    ensures Num(ByteBits(s), 8 * i, 16) == 256 * (s[i + 1] as nat) + s[i]
  {
    hide ByteBits, LE, ToLE;
    var S := ByteBits(s);
    ByteBitsAt(s, i);
    ByteBitsAt(s, i + 1);
    assert S[8 * i..8 * i + 16] == S[8 * i..8 * i + 8] + S[8 * i + 8..8 * i + 16];
    LEAppend(ToLE(8, s[i]), ToLE(8, s[i + 1]));
    LEToLE(8, s[i]);
    LEToLE(8, s[i + 1]);
    Pow2Values();
    LowSmall(s[i], 8);
    LowSmall(s[i + 1], 8);
    ShlIsProduct(s[i + 1], 8);
  }

  /** The last k bytes of s are the first k of the pattern. */
  predicate Ends(s: seq<byte>, k: nat)
    requires k <= 4
  {
    k <= |s| && s[|s| - k..] == PATTERN[..k]
  }

  /** got is the longest prefix of the pattern that s ends in. */
  predicate Longest(s: seq<byte>, got: nat) {
    got <= 4 && Ends(s, got) && forall k :: got < k <= 4 ==> !Ends(s, k)
  }

  /** The pattern does not occur before the end of s. */
  predicate NoneBefore(s: seq<byte>) {
    forall k :: 0 <= k < |s| ==> !Ends(s[..k], 4)
  }

  /** The counter after one more byte. */
  function Count(got: nat, b: byte): (g: nat)
    requires got < 4
    ensures g <= 4
  {
    if b == (if got < 2 then 0 else 0xff) then got + 1 else if b != 0 then 0 else 4 - got
  }

  lemma {:induction false} EndsMore(s: seq<byte>, b: byte, k: nat)
    requires k < 4
    ensures Ends(s + [b], k + 1) <==> Ends(s, k) && PATTERN[k] == b
  {
    var t := s + [b];
    if k <= |s| {
      assert t[|t| - (k + 1)..] == s[|s| - k..] + [b];
      assert PATTERN[..k + 1] == PATTERN[..k] + [PATTERN[k]];
      if Ends(t, k + 1) {
        assert s[|s| - k..] == t[|t| - (k + 1)..][..k] == PATTERN[..k + 1][..k] == PATTERN[..k];
        assert b == t[|t| - (k + 1)..][k] == PATTERN[..k + 1][k];
      }
    }
  }

  /** Which shorter prefixes s ends in as well. */
  lemma {:induction false} Shorter(s: seq<byte>, got: nat)
    requires got < 4 && Longest(s, got)
    ensures Ends(s, 0) && (Ends(s, 1) <==> got == 1 || got == 2) && (Ends(s, 2) <==> got == 2)
    ensures Ends(s, 3) <==> got == 3
  {
    assert PATTERN[..1] == [0] && PATTERN[..2] == [0, 0] && PATTERN[..3] == [0, 0, 0xff] && PATTERN[..0] == [];
    assert s[|s|..] == [];
    if got == 2 {
      assert s[|s| - 2..] == [0, 0];
      assert s[|s| - 1..] == s[|s| - 2..][1..] == [0];
    }
    if got == 3 {
      assert s[|s| - 3..] == [0, 0, 0xff];
      assert s[|s| - 1..] == s[|s| - 3..][2..] == [0xff];
      assert s[|s| - 2..] == s[|s| - 3..][1..] == [0, 0xff];
      assert s[|s| - 1..][0] != PATTERN[..1][0] && s[|s| - 2..][1] != PATTERN[..2][1];
    }
  }

  /** The counter stays the longest prefix. */
  lemma {:induction false} CountIsLongest(s: seq<byte>, got: nat, b: byte)
    requires got < 4 && Longest(s, got)
    ensures Longest(s + [b], Count(got, b))
  {
    hide Ends;
    Shorter(s, got);
    EndsMore(s, b, 0);
    EndsMore(s, b, 1);
    EndsMore(s, b, 2);
    EndsMore(s, b, 3);
    EndsNothing(s + [b]);
  }

  lemma {:induction false} EndsNothing(s: seq<byte>)
    ensures Ends(s, 0)
  {
    assert s[|s|..] == PATTERN[..0];
  }

  /** A search that stops with the whole pattern found has found its first occurrence in
      everything that was read and everything that follows. */
  lemma {:induction false} FirstOccurrence(s: seq<byte>, t: seq<byte>, j: nat)
    requires Longest(s, 4) && NoneBefore(s) && j + 4 <= |s + t| && (s + t)[j..j + 4] == PATTERN
    ensures |s| >= 4 && s[|s| - 4..] == PATTERN && j >= |s| - 4
  {
    assert PATTERN[..4] == PATTERN;
    if j + 4 <= |s| {
      assert s[j..j + 4] == (s + t)[j..j + 4];
      Occurs(s, j);
    }
  }

  /** A search that read everything without finding it: it does not occur. */
  lemma {:induction false} NoOccurrence(s: seq<byte>, got: nat, j: nat)
    requires Longest(s, got) && got < 4 && NoneBefore(s) && j + 4 <= |s|
    ensures s[j..j + 4] != PATTERN
  {
    assert s[..|s|] == s;
    if s[j..j + 4] == PATTERN { Occurs(s, j); }
  }

  lemma {:induction false} Occurs(s: seq<byte>, j: nat)
    requires j + 4 <= |s| && s[j..j + 4] == PATTERN
    ensures Ends(s[..j + 4], 4)
  {
    var p := s[..j + 4];
    assert p[|p| - 4..] == s[j..j + 4] == PATTERN[..4];
  }

  /** syncsearch(): go on from the counter that earlier pieces left, whose bytes are seen. */
  method Syncsearch(have: nat, buf: seq<byte>, ghost seen: seq<byte>) returns (got: nat, next: nat)
    requires Longest(seen, have) && NoneBefore(seen)
    ensures next <= |buf| && Longest(seen + buf[..next], got) && NoneBefore(seen + buf[..next])
    ensures got == 4 || next == |buf|
  {
    hide Longest, Count;
    got, next := have, 0;
    assert seen + buf[..0] == seen;
    LongestIs(seen, have);
    while next < |buf| && got < 4
      invariant next <= |buf| && got <= 4
      invariant Longest(seen + buf[..next], got) && NoneBefore(seen + buf[..next])
    {
      ghost var s := seen + buf[..next];
      CountIsLongest(s, got, buf[next]);
      NoneYet(s, got, buf[next]);
      assert seen + buf[..next + 1] == s + [buf[next]];
      CountIs(got, buf[next]);
      if buf[next] == (if got < 2 then 0 else 0xff) {
        got := got + 1;
      } else if buf[next] != 0 {
        got := 0;
      } else {
        got := 4 - got;
      }
      next := next + 1;
    }
  }

  lemma {:induction false} CountIs(got: nat, b: byte)
    requires got < 4
    ensures Count(got, b) == if b == (if got < 2 then 0 else 0xff) then got + 1 else if b != 0 then 0 else 4 - got
  {}

  lemma {:induction false} LongestIs(s: seq<byte>, got: nat)
    requires Longest(s, got)
    ensures got <= 4
  {}

  lemma {:induction false} NoneYet(s: seq<byte>, got: nat, b: byte)
    requires Longest(s, got) && got < 4 && NoneBefore(s)
    ensures NoneBefore(s + [b])
  {
    forall k | 0 <= k < |s + [b]| ensures !Ends((s + [b])[..k], 4) {
      if k == |s| { assert (s + [b])[..k] == s; } else { assert (s + [b])[..k] == s[..k]; }
    }
  }

  /** The search over pieces: it stops right after the first occurrence in all of them
      together, or has read them all. */
  method SearchPieces(pieces: seq<seq<byte>>) returns (got: nat, piece: nat, next: nat)
    ensures piece <= |pieces| && (piece < |pieces| ==> next <= |pieces[piece]| && got == 4)
    ensures var s := Joined(pieces[..piece]) + if piece < |pieces| then pieces[piece][..next] else [];
            Longest(s, got) && NoneBefore(s)
    ensures piece == |pieces| ==> got < 4
  {
    hide Longest, NoneBefore;
    got, piece, next := 0, 0, 0;
    NothingRead();
    while piece < |pieces|
      invariant piece <= |pieces| && got < 4
      invariant Longest(Joined(pieces[..piece]), got) && NoneBefore(Joined(pieces[..piece]))
    {
      got, next := Syncsearch(got, pieces[piece], Joined(pieces[..piece]));
      LongestIs(Joined(pieces[..piece]) + pieces[piece][..next], got);
      if got == 4 { return; }
      assert pieces[piece][..next] == pieces[piece];
      JoinedMore(pieces, piece);
      piece := piece + 1;
    }
    assert Joined(pieces[..piece]) + [] == Joined(pieces[..piece]);
  }

  function Joined(pieces: seq<seq<byte>>): seq<byte> {
    if pieces == [] then [] else Joined(pieces[..|pieces| - 1]) + pieces[|pieces| - 1]
  }

  lemma {:induction false} JoinedMore(pieces: seq<seq<byte>>, i: nat)
    requires i < |pieces|
    ensures Joined(pieces[..i + 1]) == Joined(pieces[..i]) + pieces[i]
  {
    assert pieces[..i + 1][..i] == pieces[..i];
  }

  lemma {:induction false} NothingRead()
    ensures Longest([], 0) && NoneBefore([])
  {
    EndsNothing([]);
  }
}
