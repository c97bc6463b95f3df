/** Reading a bit stream: fixed-width numbers and canonical codes. */
module Streams {
  import opened Bits
  import opened Canonical
  import opened Tables

  /** The bits of a whole number of bytes. */
  type Stream = s: seq<bool> | |s| % 8 == 0

  /** The n-bit number at position pos, least significant bit first. */
  function Num(S: seq<bool>, pos: nat, n: nat): nat
    requires pos + n <= |S|
  {
    LE(S[pos..pos + n])
  }

  /** The next byte boundary. */
  function Align(pos: nat): (p: nat)
    ensures pos <= p < pos + 8 && p % 8 == 0
  {
    (pos + 7) / 8 * 8
  }

  lemma {:induction false} AlignDrops(t: nat, b: nat)
    requires b <= 8 * t
    ensures Align(8 * t - b) == 8 * t - (b - b % 8)
  {}

  lemma {:induction false} NumBound(S: seq<bool>, pos: nat, n: nat)
    requires pos + n <= |S|
    ensures Num(S, pos, n) < Pow2(n)
  {
    LEBound(S[pos..pos + n]);
  }

  // ---- Decoding one symbol ---------------------------------------------------------

  datatype Decoded = Found(s: nat, n: nat) | Invalid | More

  /** The symbol whose code begins w, if one does. An incomplete code has no symbol
      for some first bit, and then says so after one bit. */
  ghost function Decode(lens: Lens, w: seq<bool>): Decoded {
    if exists s: nat :: Matches(lens, s, w) then
      var s: nat :| Matches(lens, s, w);
      Found(s, lens[s])
    else if !Complete(lens) && |w| >= 1 then Invalid
    else More
  }

  lemma {:induction false} DecodeFound(lens: Lens, s: nat, w: seq<bool>)
    requires Fits(lens) && Matches(lens, s, w)
    ensures Decode(lens, w) == Found(s, lens[s])
  {
    var t: nat :| Matches(lens, t, w) && Decode(lens, w) == Found(t, lens[t]);
    MatchUnique(lens, s, t, w);
  }

  /** What has been decoded does not change when more bits arrive. */
  lemma {:induction false} DecodeMono(kind: Kind, lens: Lens, w: seq<bool>, v: seq<bool>)
    requires Acceptable(kind, lens) && w <= v && !Decode(lens, w).More?
    ensures Decode(lens, v) == Decode(lens, w)
    ensures Decode(lens, w).Found? ==> 1 <= Decode(lens, w).n <= |w| && Uses(lens, Decode(lens, w).s)
  {
    AcceptableFits(kind, lens);
    match Decode(lens, w)
    case Found(s, n) =>
      assert Matches(lens, s, w) by { FoundMatches(lens, w); }
      assert CodeBits(lens, s) <= v;
      DecodeFound(lens, s, v);
    case Invalid =>
      forall s: nat ensures !Matches(lens, s, v) { InvalidStays(kind, lens, w, v, s); }
  }

  lemma {:induction false} FoundMatches(lens: Lens, w: seq<bool>)
    requires Decode(lens, w).Found?
    ensures Matches(lens, Decode(lens, w).s, w) && Decode(lens, w).n == lens[Decode(lens, w).s]
  {}

  lemma {:induction false} InvalidStays(kind: Kind, lens: Lens, w: seq<bool>, v: seq<bool>, s: nat)
    requires Acceptable(kind, lens) && w <= v && Decode(lens, w).Invalid?
    ensures !Matches(lens, s, v)
  {
    if Matches(lens, s, v) {
      var t := LoneCode(kind, lens);
      assert CodeBits(lens, s) <= w;
      assert Matches(lens, s, w);
    }
  }

  /** What a lookup in the bits w says about a stream v that begins with w. */
  ghost predicate Tells(kind: Kind, lens: Lens, e: Code, w: seq<bool>, v: seq<bool>)
    requires |lens| <= Limit(kind)
  {
    if e.bits > |w| then Decode(lens, w).More?
    else match Decode(lens, v)
      case Found(s, n) => Uses(lens, s) && e == Entry(kind, s, lens[s]) && n == e.bits
      case Invalid => e == INVALID
      case More => false
  }

  /** Decoding through a table: what the lookup finds in the bits at hand, as long
      as it needs no more than those, is what the stream says. */
  lemma {:induction false} DecodeByTable(kind: Kind, lens: Lens, t: seq<Code>, root: nat, w: seq<bool>, v: seq<bool>)
    requires TableOK(kind, lens, t, root) && w <= v
    ensures CanLookup(t, root, LE(w)) && Tells(kind, lens, Lookup(t, root, LE(w)), w, v)
  {
    AcceptableFits(kind, lens);
    var s, found := LookupSound(kind, lens, t, root, LE(w));
    if found {
      EntryIsNoLink(kind, s, lens[s]);
      MatchesHuff(lens, s, w);
      if lens[s] <= |w| {
        assert CodeBits(lens, s) <= v;
        DecodeFound(lens, s, v);
      } else {
        LongLookup(kind, lens, t, root, s, w);
      }
    } else {
      forall u: nat ensures !Matches(lens, u, w) {
        if Matches(lens, u, w) {
          MatchesHuff(lens, u, w);
          assert Starts(lens, u, LE(w));
        }
      }
      if |w| >= 1 { DecodeMono(kind, lens, w, v); }
    }
  }

  lemma {:induction false} LongLookup(kind: Kind, lens: Lens, t: seq<Code>, root: nat, s: nat, w: seq<bool>)
    requires TableOK(kind, lens, t, root) && Starts(lens, s, LE(w)) && |w| < lens[s]
    ensures Decode(lens, w).More?
  {
    forall u: nat ensures !Matches(lens, u, w) {
      if Matches(lens, u, w) {
        MatchesHuff(lens, u, w);
        LookupFinds(kind, lens, t, root, s, LE(w));
        LookupFinds(kind, lens, t, root, u, LE(w));
        EntryIsNoLink(kind, u, lens[u]);
        EntryIsNoLink(kind, s, lens[s]);
        assert false;
      }
    }
    DecodeShort(kind, lens, s, w);
  }

  /** When a code is looked up that is longer than the bits at hand, an incomplete
      code has no bit at hand at all. */
  lemma {:induction false} DecodeShort(kind: Kind, lens: Lens, s: nat, w: seq<bool>)
    requires Acceptable(kind, lens) && Uses(lens, s) && |w| < lens[s]
    ensures Complete(lens) || |w| == 0
  {
    if !Complete(lens) {
      var t := LoneCode(kind, lens);
    }
  }

  /** A symbol that was still incomplete in w takes more bits than w has. */
  lemma {:induction false} TakesMore(kind: Kind, lens: Lens, w: seq<bool>, v: seq<bool>)
    requires Acceptable(kind, lens) && w <= v && Decode(lens, w).More?
    ensures Decode(lens, v).Found? ==> |w| < Decode(lens, v).n
    ensures Decode(lens, v).Invalid? ==> |w| == 0
  {
    AcceptableFits(kind, lens);
    match Decode(lens, v)
    case Found(s, n) =>
      FoundMatches(lens, v);
      if n <= |w| {
        assert CodeBits(lens, s) <= w;
        assert Matches(lens, s, w);
      }
    case _ =>
  }

  /** What the entry behind link e says. */
  ghost predicate LinkTells(kind: Kind, lens: Lens, t: seq<Code>, root: nat, e: Code, w: seq<bool>, v: seq<bool>)
    requires |lens| <= Limit(kind)
  {
    var i := e.val + Low(Shr(LE(w), root), e.op);
    && e.bits == root && i < |t| && root + t[i].bits <= MAXBITS
    && Tells(kind, lens, Code(t[i].op, root + t[i].bits, t[i].val), w, v)
  }

  /** The first entry looked up already tells when more bits are needed. */
  lemma {:induction false} RootTells(kind: Kind, lens: Lens, t: seq<Code>, root: nat, w: seq<bool>, v: seq<bool>)
    requires TableOK(kind, lens, t, root) && w <= v
    ensures CanLookup(t, root, LE(w))
    ensures var e := t[Low(LE(w), root)];
      && (e.bits > |w| ==> Decode(lens, w).More?)
      && e.bits <= MAXBITS && 1 <= e.bits
      && (!IsLink(e) ==> Tells(kind, lens, e, w, v))
      && (IsLink(e) ==> LinkTells(kind, lens, t, root, e, w, v))
  {
    hide LE, Decode, Acceptable, Entry, Holds;
    DecodeByTable(kind, lens, t, root, w, v);
    var s, found := LookupSound(kind, lens, t, root, LE(w));
    if found { EntryIsNoLink(kind, s, lens[s]); }
  }

  lemma {:induction false} LowStable(w: seq<bool>, v: seq<bool>, n: nat)
    requires w <= v && n <= |w|
    ensures Low(LE(w), n) == Low(LE(v), n)
  {
    LESplit(w, n);
    LESplit(v, n);
    assert w[..n] == v[..n];
  }

  /** With a symbol still incomplete in all of w, or in all but its last byte, less
      than a byte is left once the symbol is taken off. */
  lemma {:induction false} Leftover(kind: Kind, lens: Lens, e: Code, w: seq<bool>, v: seq<bool>)
    requires |lens| <= Limit(kind) && Acceptable(kind, lens) && w <= v
    requires Tells(kind, lens, e, w, v) && e.bits <= |w|
    requires |w| < 8 || Decode(lens, w).More? || Decode(lens, w[..|w| - 8]).More?
    ensures !Decode(lens, v).More? && |w| - e.bits < 8
  {
    hide Acceptable, Entry;
    if Decode(lens, w).More? {
      TakesMore(kind, lens, w, v);
    } else if |w| >= 8 {
      TakesMore(kind, lens, w[..|w| - 8], v);
    }
  }

  /** Fifteen bits decide every symbol. */
  lemma {:induction false} MoreIsShort(kind: Kind, lens: Lens, w: seq<bool>)
    requires Acceptable(kind, lens) && Decode(lens, w).More?
    ensures |w| < MAXBITS
  {
    if |w| >= MAXBITS && Complete(lens) {
      ShlZero(0);
      var s := FindCode(lens, LE(w), 0);
      MatchesHuff(lens, s, w);
      assert false;
    }
  }

  lemma {:induction false} NumOfOne(S: seq<bool>, pos: nat)
    requires pos < |S|
    ensures Num(S, pos, 1) == Bit(S[pos])
  {
    assert S[pos..pos + 1] == [S[pos]];
    assert LE([S[pos]]) == Bit(S[pos]) + 2 * LE([]);
  }

  /** Less than the whole code of a symbol decides nothing. */
  lemma {:induction false} ShortIsMore(kind: Kind, lens: Lens, w: seq<bool>, v: seq<bool>)
    requires Acceptable(kind, lens) && w <= v && Decode(lens, v).Found? && |w| < Decode(lens, v).n
    ensures Decode(lens, w).More?
  {
    if !Decode(lens, w).More? { DecodeMono(kind, lens, w, v); }
  }

  /** A table whose root bits cover every length has no links. */
  lemma {:induction false} NoLinks(kind: Kind, lens: Lens, t: seq<Code>, root: nat, x: nat)
    requires TableOK(kind, lens, t, root) && AtMost(lens, root)
    ensures CanLookup(t, root, x) && !IsLink(t[Low(x, root)])
  {
    var s, found := LookupSound(kind, lens, t, root, x);
  }
}
