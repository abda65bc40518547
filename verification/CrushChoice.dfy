/** Which match crush takes, as a function of the text: what it weighs along the chains, and what it can miss. */
module CrushChoice {
  import opened Permutations
  import opened BitStream
  import opened CrushFormat
  import opened CrushChains

  // ---- Agreement and penalties ----

  /** How far the characters from s and from p on agree, up to a limit, l of them being known to. */
  function Agreeing(x: seq<Byte>, s: nat, p: nat, l: nat, limit: nat): (r: nat)
    requires s < p && l <= limit && p + limit <= |x|
    ensures l <= r <= limit
    decreases limit - l
  {
    if l < limit && x[s + l] == x[p + l] then Agreeing(x, s, p, l + 1, limit) else l
  }

  lemma {:induction false} AgreeingSame(x: seq<Byte>, s: nat, p: nat, l: nat, limit: nat)
    requires s < p && l <= limit && p + limit <= |x| && x[s..s + l] == x[p..p + l]
    ensures var r := Agreeing(x, s, p, l, limit); x[s..s + r] == x[p..p + r] && (r < limit ==> x[s + r] != x[p + r])
    decreases limit - l
  {
    if l < limit && x[s + l] == x[p + l] {
      assert x[s..s + l + 1] == x[s..s + l] + [x[s + l]] && x[p..p + l + 1] == x[p..p + l] + [x[p + l]];
      AgreeingSame(x, s, p, l + 1, limit);
    }
  }

  /** Characters that agree are counted. */
  lemma {:induction false} AgreeingAtLeast(x: seq<Byte>, s: nat, p: nat, l: nat, limit: nat, k: nat)
    requires s < p && l <= k <= limit && p + limit <= |x| && x[s..s + k] == x[p..p + k]
    ensures Agreeing(x, s, p, l, limit) >= k
    decreases limit - l
  {
    if l < k {
      assert x[s..s + k][l] == x[p..p + k][l];
      AgreeingAtLeast(x, s, p, l + 1, limit, k);
    }
  }

  lemma AgreeingChars(x: seq<Byte>, s: nat, p: nat, limit: nat, k: nat)
    requires s < p && p + limit <= |x|
    ensures k < Agreeing(x, s, p, 0, limit) ==> x[s + k] == x[p + k]
  {
    AgreeingSame(x, s, p, 0, limit);
    var r := Agreeing(x, s, p, 0, limit);
    assert k < r ==> x[s..s + r][k] == x[p..p + r][k];
  }

  /** How many times a is cut to an eighth until it is no more than b. */
  function Cuts(a: nat, b: nat): nat {
    if a <= b then 0 else 1 + Cuts(a / 8, b)
  }

  /** The further back a match, and the nearer the best so far, the more cuts. */
  lemma {:induction false} CutsMonotone(a: nat, a': nat, b: nat, b': nat)
    requires a <= a' && b' <= b
    ensures Cuts(a, b) <= Cuts(a', b')
    decreases a'
  {
    if a > b {
      CutsMonotone(a / 8, a' / 8, b, b');
    }
  }

  // ---- What is found ----

  /** The lowest position in the window. */
  function Limit(p: nat): nat {
    if p < W_SIZE then 0 else p - W_SIZE
  }

  function MinOf(a: nat, b: nat): nat {
    if a < b then a else b
  }

  function MaxChain(level: nat): nat
    requires level <= 2
  {
    if level == 0 then 4 else if level == 1 then 256 else 4096
  }

  /** No match, or one that is true and that the format can say. */
  ghost predicate Found(x: seq<Byte>, p: nat, maxMatch: nat, len: nat, offset: nat) {
    && (len <= maxMatch || len == MIN_MATCH - 1) && p + len <= |x| && len <= MAX_MATCH
    && (len >= MIN_MATCH ==> 1 <= offset <= p && offset <= W_SIZE && x[p - offset..p - offset + len] == x[p..p + len])
  }

  /** The last position with the hash of p's three characters. */
  function ShortMatch(x: seq<Byte>, p: nat, maxMatch: nat): (r: (nat, nat))
    requires p + maxMatch + 3 <= |x| && p + 4 <= |x|
  {
    var s := Latest(x, false, HashAt(x, false, p), p);
    if s < Limit(p) then (MIN_MATCH - 1, W_SIZE)
    else
      var l := Agreeing(x, s, p, 0, maxMatch);
      if l > MIN_MATCH - 1 then (l, p - s) else (MIN_MATCH - 1, W_SIZE)
  }

  /** The position before s on its chain. */
  function Link(x: seq<Byte>, s: nat): (t: int)
    requires s + 4 <= |x|
    ensures -1 <= t < s
  {
    Latest(x, true, HashAt(x, true, s), s)
  }

  /** Positions on the chain from s, up to `left` of them in the window: each takes the place of the best if it is longer by enough. */
  function LongMatch(x: seq<Byte>, p: nat, maxMatch: nat, s: int, left: nat, len: nat, offset: nat): (r: (nat, nat))
    requires p + maxMatch + 3 <= |x| && s < p && (len <= maxMatch || len == MIN_MATCH - 1) && p + 4 <= |x|
    ensures r.0 >= len && (r.0 <= maxMatch || r.0 == MIN_MATCH - 1)
    decreases left
  {
    if left == 0 || s < Limit(p) then (len, offset)
    else if x[s + len] == x[p + len] && x[s] == x[p] then
      var l := Agreeing(x, s, p, 0, maxMatch);
      var longer := l > len + Cuts((p - s) / 16, offset);
      var len', offset' := if longer then l else len, if longer then p - s else offset;
      if l == maxMatch then (len', offset') else LongMatch(x, p, maxMatch, Link(x, s), left - 1, len', offset')
    else LongMatch(x, p, maxMatch, Link(x, s), left - 1, len, offset)
  }

  lemma LongMatchOver(x: seq<Byte>, p: nat, maxMatch: nat, s: int, left: nat, len: nat, offset: nat)
    requires p + maxMatch + 3 <= |x| && s < p && (len <= maxMatch || len == MIN_MATCH - 1) && p + 4 <= |x|
    requires left == 0 || s < Limit(p)
    ensures LongMatch(x, p, maxMatch, s, left, len, offset) == (len, offset)
  {
  }

  lemma LongMatchOn(x: seq<Byte>, p: nat, maxMatch: nat, s: int, left: nat, len: nat, offset: nat)
    requires p + maxMatch + 3 <= |x| && s < p && (len <= maxMatch || len == MIN_MATCH - 1) && p + 4 <= |x|
    requires left > 0 && s >= Limit(p)
    ensures var look, l := x[s + len] == x[p + len] && x[s] == x[p], Agreeing(x, s, p, 0, maxMatch);
            var longer := look && l > len + Cuts((p - s) / 16, offset);
            var len', offset' := if longer then l else len, if longer then p - s else offset;
            LongMatch(x, p, maxMatch, s, left, len, offset)
            == if look && l == maxMatch then (len', offset') else LongMatch(x, p, maxMatch, Link(x, s), left - 1, len', offset')
  {
  }

  /** Whether the next position has, on the chain from s, a match longer by enough. */
  function NextLonger(x: seq<Byte>, p: nat, maxLazy: nat, s: int, left: nat, len: nat, offset: nat): bool
    requires p + maxLazy + 4 <= |x| && s <= p && len <= maxLazy && p + 5 <= |x|
    decreases left
  {
    if left == 0 || s < Limit(p) then false
    else if x[s + len] == x[p + 1 + len] && x[s] == x[p + 1] then
      var l := Agreeing(x, s, p + 1, 0, maxLazy);
      l > len + Cuts(p + 1 - s, offset)
      || (l != maxLazy && NextLonger(x, p, maxLazy, Link(x, s), left - 1, len, offset))
    else NextLonger(x, p, maxLazy, Link(x, s), left - 1, len, offset)
  }

  /** The best match, before it is decided whether to take it. */
  function BestMatch(x: seq<Byte>, size: nat, level: nat, p: nat): (r: (nat, nat))
    requires p < size && size + 4 <= |x| && level <= 2
    ensures r.0 <= MinOf(MAX_MATCH, size - p) || r.0 == MIN_MATCH - 1
  {
    var maxMatch := MinOf(MAX_MATCH, size - p);
    var short := ShortMatch(x, p, maxMatch);
    if short.0 < MAX_MATCH
    then LongMatch(x, p, maxMatch, Latest(x, true, HashAt(x, true, p), p), MaxChain(level), short.0, short.1)
    else short
  }

  /** Too short a match too far away is not taken; at the last level neither is one that the next position outdoes. */
  function Taken(x: seq<Byte>, size: nat, level: nat, p: nat): (r: (nat, nat))
    requires p < size && size + 4 <= |x| && level <= 2
  {
    var maxMatch := MinOf(MAX_MATCH, size - p);
    var best := BestMatch(x, size, level, p);
    if best.0 == MIN_MATCH && best.1 > TOO_FAR then (0, best.1)
    else if level >= 2 && MIN_MATCH <= best.0 < maxMatch
            && NextLonger(x, p, MinOf(best.0 + 4, maxMatch), Latest(x, true, HashAt(x, true, p + 1), p), MaxChain(level), best.0, best.1)
    then (0, best.1)
    else best
  }

  // ---- What it is worth ----

  /** No more characters at s agree than the match found has, and the penalty for the distance. */
  ghost predicate Outweighs(x: seq<Byte>, p: nat, maxMatch: nat, s: int, r: (nat, nat)) {
    0 <= s < p && p + maxMatch <= |x| && Agreeing(x, s, p, 0, maxMatch) <= r.0 + Cuts((p - s) / 16, r.1)
  }

  /** The k-th position of the chain from s. */
  function ChainAt(x: seq<Byte>, s: int, k: nat): (t: int)
    requires s + 4 <= |x|
    ensures t <= s
    decreases k
  {
    if k == 0 || s < 0 then s else ChainAt(x, Link(x, s), k - 1)
  }

  lemma OutweighsStill(x: seq<Byte>, p: nat, maxMatch: nat, s: int, t: int, r: (nat, nat), len: nat)
    requires Outweighs(x, p, maxMatch, s, r) && 0 <= t < s && len > r.0 + Cuts((p - t) / 16, r.1)
    ensures Outweighs(x, p, maxMatch, s, (len, p - t))
  {
    CutsMonotone((p - s) / 16, (p - t) / 16, r.1, r.1);
  }

  /** A quick look that tells a position apart tells that it agrees no further. */
  lemma QuickLook(x: seq<Byte>, s: nat, p: nat, maxMatch: nat, len: nat)
    requires s < p && p + maxMatch + 3 <= |x| && (len <= maxMatch || len == MIN_MATCH - 1) && !(x[s + len] == x[p + len] && x[s] == x[p])
    ensures Agreeing(x, s, p, 0, maxMatch) <= len
  {
    hide Agreeing;
    AgreeingChars(x, s, p, maxMatch, len);
    AgreeingChars(x, s, p, maxMatch, 0);
  }

  /** What outweighs a position keeps doing so, while longer matches further back take its place. */
  lemma {:induction false} LongMatchKeeps(x: seq<Byte>, p: nat, maxMatch: nat, s: int, left: nat, len: nat, offset: nat, t: int)
    requires p + maxMatch + 3 <= |x| && s < t && (len <= maxMatch || len == MIN_MATCH - 1) && p + 4 <= |x|
    requires Outweighs(x, p, maxMatch, t, (len, offset))
    ensures Outweighs(x, p, maxMatch, t, LongMatch(x, p, maxMatch, s, left, len, offset))
    decreases left
  {
    hide Cuts, Agreeing, Latest, HashAt;
    if left != 0 && s >= Limit(p) {
      if x[s + len] == x[p + len] && x[s] == x[p] {
        var l := Agreeing(x, s, p, 0, maxMatch);
        if l > len + Cuts((p - s) / 16, offset) {
          OutweighsStill(x, p, maxMatch, t, s, (len, offset), l);
          if l != maxMatch { LongMatchKeeps(x, p, maxMatch, Link(x, s), left - 1, l, p - s, t); }
        } else if l != maxMatch {
          LongMatchKeeps(x, p, maxMatch, Link(x, s), left - 1, len, offset, t);
        }
      } else {
        LongMatchKeeps(x, p, maxMatch, Link(x, s), left - 1, len, offset, t);
      }
    }
  }

  /** Every position of the chain in the window, as far as it is followed, is outweighed by what is found. */
  lemma {:induction false} LongMatchOutweighs(x: seq<Byte>, p: nat, maxMatch: nat, s: int, left: nat, len: nat, offset: nat, k: nat)
    requires p + maxMatch + 3 <= |x| && s < p && (len <= maxMatch || len == MIN_MATCH - 1) && p + 4 <= |x|
    requires k < left && ChainAt(x, s, k) >= Limit(p)
    ensures Outweighs(x, p, maxMatch, ChainAt(x, s, k), LongMatch(x, p, maxMatch, s, left, len, offset))
    decreases left
  {
    hide Cuts, Agreeing, Latest, HashAt;
    var t := ChainAt(x, s, k);
    var l := Agreeing(x, s, p, 0, maxMatch);
    if x[s + len] == x[p + len] && x[s] == x[p] {
      var longer := l > len + Cuts((p - s) / 16, offset);
      var len', offset' := if longer then l else len, if longer then p - s else offset;
      assert Outweighs(x, p, maxMatch, s, (len', offset'));
      if l == maxMatch {
        FurtherOutweighed(x, p, maxMatch, s, t, (len', offset'));
      } else if k == 0 {
        LongMatchKeeps(x, p, maxMatch, Link(x, s), left - 1, len', offset', s);
      } else {
        LongMatchOutweighs(x, p, maxMatch, Link(x, s), left - 1, len', offset', k - 1);
      }
    } else {
      QuickLook(x, s, p, maxMatch, len);
      if k == 0 {
        LongMatchKeeps(x, p, maxMatch, Link(x, s), left - 1, len, offset, s);
      } else {
        LongMatchOutweighs(x, p, maxMatch, Link(x, s), left - 1, len, offset, k - 1);
      }
    }
  }

  /** After a match of the greatest length nothing further back is worth more. */
  lemma FurtherOutweighed(x: seq<Byte>, p: nat, maxMatch: nat, s: int, t: int, r: (nat, nat))
    requires Outweighs(x, p, maxMatch, s, r) && 0 <= t <= s && Agreeing(x, s, p, 0, maxMatch) == maxMatch
    ensures Outweighs(x, p, maxMatch, t, r)
  {
    CutsMonotone((p - s) / 16, (p - t) / 16, r.1, r.1);
  }

  /** The match found is no shorter than that with the last position of the three characters' hash. */
  lemma BestAtLeastShort(x: seq<Byte>, size: nat, level: nat, p: nat, s: nat, l: nat)
    requires p < size && size + 4 <= |x| && level <= 2 && s == Latest(x, false, HashAt(x, false, p), p) >= Limit(p)
    requires MIN_MATCH <= l <= MinOf(MAX_MATCH, size - p) && x[s..s + l] == x[p..p + l]
    ensures BestMatch(x, size, level, p).0 >= l
  {
    hide Latest, HashAt, LongMatch;
    AgreeingAtLeast(x, s, p, 0, MinOf(MAX_MATCH, size - p), l);
  }

  /** No position that is weighed agrees for more than the match found and the penalty for its distance. */
  lemma BestOutweighs(x: seq<Byte>, size: nat, level: nat, p: nat, k: nat)
    requires p < size && size + 4 <= |x| && level <= 2 && k < MaxChain(level)
    requires ChainAt(x, Latest(x, true, HashAt(x, true, p), p), k) >= Limit(p)
    ensures Outweighs(x, p, MinOf(MAX_MATCH, size - p), ChainAt(x, Latest(x, true, HashAt(x, true, p), p), k), BestMatch(x, size, level, p))
  {
    hide Latest, HashAt, LongMatch, Cuts, ChainAt;
    var maxMatch := MinOf(MAX_MATCH, size - p);
    var short := ShortMatch(x, p, maxMatch);
    if short.0 < MAX_MATCH {
      LongMatchOutweighs(x, p, maxMatch, Latest(x, true, HashAt(x, true, p), p), MaxChain(level), short.0, short.1, k);
    }
  }

  /** At the first two levels a match of four or more is always taken as found. */
  lemma TakenAtLeast(x: seq<Byte>, size: nat, level: nat, p: nat)
    requires p < size && size + 4 <= |x| && level <= 1
    ensures var best, taken := BestMatch(x, size, level, p), Taken(x, size, level, p);
            taken == best || (best.0 == MIN_MATCH && best.1 > TOO_FAR && taken.0 == 0)
  {
  }

  /** The k-th position of the next one's chain has a match longer by enough. */
  ghost predicate Outdoes(x: seq<Byte>, p: nat, maxLazy: nat, s: int, len: nat, offset: nat) {
    Limit(p) <= s <= p && p + 1 + maxLazy <= |x| && Agreeing(x, s, p + 1, 0, maxLazy) > len + Cuts(p + 1 - s, offset)
  }

  /** A match is given up for the next position only if one of its chain outdoes it. */
  lemma {:induction false} NextLongerHas(x: seq<Byte>, p: nat, maxLazy: nat, s: int, left: nat, len: nat, offset: nat) returns (k: nat)
    requires p + maxLazy + 4 <= |x| && s <= p && len <= maxLazy && p + 5 <= |x| && NextLonger(x, p, maxLazy, s, left, len, offset)
    ensures k < left && Outdoes(x, p, maxLazy, ChainAt(x, s, k), len, offset)
    decreases left
  {
    hide Cuts, Agreeing, Latest, HashAt;
    if x[s + len] == x[p + 1 + len] && x[s] == x[p + 1] && Agreeing(x, s, p + 1, 0, maxLazy) > len + Cuts(p + 1 - s, offset) {
      k := 0;
    } else {
      var j := NextLongerHas(x, p, maxLazy, Link(x, s), left - 1, len, offset);
      k := j + 1;
    }
  }

  /** And it is given up if one does, no match of full length being met before. */
  lemma {:induction false} NextLongerIf(x: seq<Byte>, p: nat, maxLazy: nat, s: int, left: nat, len: nat, offset: nat, k: nat)
    requires p + maxLazy + 4 <= |x| && s <= p && len < maxLazy && p + 5 <= |x| && k < left
    requires Outdoes(x, p, maxLazy, ChainAt(x, s, k), len, offset)
    ensures NextLonger(x, p, maxLazy, s, left, len, offset)
    decreases left
  {
    hide Agreeing, Latest, HashAt;
    var t := ChainAt(x, s, k);
    var l := Agreeing(x, s, p + 1, 0, maxLazy);
    CutsMonotone(p + 1 - s, p + 1 - t, offset, offset);
    AgreeingChars(x, s, p + 1, maxLazy, len);
    AgreeingChars(x, s, p + 1, maxLazy, 0);
    if k > 0 && !(l > len + Cuts(p + 1 - s, offset)) && l != maxLazy {
      NextLongerIf(x, p, maxLazy, Link(x, s), left - 1, len, offset, k - 1);
    }
  }

  // ---- The whole text ----

  /** What is said at position p. */
  function TokenAt(x: seq<Byte>, size: nat, level: nat, p: nat): Token
    requires p < size && size + 4 <= |x| && level <= 2
  {
    var t := Taken(x, size, level, p);
    if t.0 >= MIN_MATCH then Match(t.1, t.0) else Literal(x[p])
  }

  /** The tokens say the first p characters, each what is said at its position. */
  ghost predicate Chosen(x: seq<Byte>, size: nat, level: nat, ts: seq<Token>, p: nat)
    requires size + 4 <= |x| && level <= 2
    decreases |ts|
  {
    if ts == [] then p == 0
    else
      var t := ts[|ts| - 1];
      Spanned(t) <= p && p - Spanned(t) < size && t == TokenAt(x, size, level, p - Spanned(t)) && Chosen(x, size, level, ts[..|ts| - 1], p - Spanned(t))
  }

  ghost predicate AllSayable(ts: seq<Token>) {
    forall i :: 0 <= i < |ts| ==> Sayable(ts[i])
  }

  ghost function TokensBits(ts: seq<Token>): Bits
    requires AllSayable(ts)
  {
    if ts == [] then [] else TokensBits(ts[..|ts| - 1]) + TokenBits(ts[|ts| - 1])
  }

  lemma ChosenNext(x: seq<Byte>, size: nat, level: nat, ts: seq<Token>, p: nat)
    requires size + 4 <= |x| && level <= 2 && p < size && Chosen(x, size, level, ts, p) && AllSayable(ts) && Sayable(TokenAt(x, size, level, p))
    ensures var t := TokenAt(x, size, level, p);
            && Chosen(x, size, level, ts + [t], p + Spanned(t)) && AllSayable(ts + [t])
            && TokensBits(ts + [t]) == TokensBits(ts) + TokenBits(t)
  {
    hide TokenBits, TokenAt;
    var t := TokenAt(x, size, level, p);
    assert (ts + [t])[..|ts|] == ts;
  }
}
