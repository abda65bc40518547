/**
 * Levels 5 to 7, as a function over separate arrays: the cheapest way on from every position is worked out
 * from the end, and a match that pays is extended to the left.
 */
module BlzLeparse {
  import opened Permutations
  import opened BlzTokens
  import opened BlzPack
  import opened BlzCost

  const WORD := 0x1_0000_0000

  /** Nine bits a byte stay within a word. */
  ghost predicate Exact(n: nat) {
    LITERAL_COST * n < WORD
  }

  /** For every position the cost from there on, and the token to take there. */
  datatype Table = Table(cost: seq<nat>, mpos: seq<nat>, mlen: seq<nat>)

  ghost predicate Sized(d: Table, n: nat) {
    |d.cost| == n + 1 && |d.mpos| == n + 1 && |d.mlen| == n + 1
  }

  function Entered(d: Table, i: nat, cost: nat, pos: nat, len: nat): (r: Table)
    requires i < |d.cost| && i < |d.mpos| && i < |d.mlen|
    ensures |r.cost| == |d.cost| && |r.mpos| == |d.mpos| && |r.mlen| == |d.mlen|
  {
    Table(d.cost[i := cost], d.mpos[i := pos], d.mlen[i := len])
  }

  /** The match length from i to len that is cheapest, the first of these; best is the cheapest of the lengths before. */
  function Cheapest(cost: seq<nat>, cur: nat, offs: nat, i: nat, len: nat, best: (nat, nat)): (r: (nat, nat))
    requires 4 <= i <= len + 1 && cur + len < |cost|
    decreases len + 1 - i
  {
    if i > len then best
    else
      var here := MatchCost(offs, i) + cost[cur + i];
      Cheapest(cost, cur, offs, i + 1, len, if best.1 == 0 || here < best.0 then (here, i) else best)
  }

  lemma {:induction false} CheapestIs(cost: seq<nat>, cur: nat, offs: nat, i: nat, len: nat, best: (nat, nat))
    requires 4 <= i <= len + 1 && cur + len < |cost| && (best.1 == 0 ==> i <= len)
    requires best.1 != 0 ==> 4 <= best.1 < i && best.0 == MatchCost(offs, best.1) + cost[cur + best.1]
    ensures var r := Cheapest(cost, cur, offs, i, len, best);
            && 4 <= r.1 <= len && r.0 == MatchCost(offs, r.1) + cost[cur + r.1] && (best.1 != 0 ==> r.0 <= best.0)
            && forall k :: i <= k <= len ==> r.0 <= MatchCost(offs, k) + cost[cur + k]
    decreases len + 1 - i
  {
    if i <= len {
      var here := MatchCost(offs, i) + cost[cur + i];
      CheapestIs(cost, cur, offs, i + 1, len, if best.1 == 0 || here < best.0 then (here, i) else best);
    }
  }

  /** The match at cur carried over to the positions before it, for as long as it can be. */
  function Extend(x: seq<Byte>, d: Table, cur: nat, pos: nat, len: nat): (r: (Table, nat))
    requires pos < cur && cur + len <= |x| && len >= 4 && |d.cost| == |x| + 1 && |d.mpos| == |x| + 1 && |d.mlen| == |x| + 1
    ensures r.1 <= cur && |r.0.cost| == |x| + 1 && |r.0.mpos| == |x| + 1 && |r.0.mlen| == |x| + 1
    decreases pos
  {
    if pos > 0 && x[pos - 1] == x[cur - 1] then
      var c := MatchCost(cur - pos - 1, len + 1) + d.cost[cur + len];
      Extend(x, Entered(d, cur - 1, c % WORD, pos - 1, len + 1), cur - 1, pos - 1, len + 1)
    else (d, cur)
  }

  /** Every chain link leads back or nowhere. */
  ghost predicate Chained(chain: seq<nat>) {
    forall i :: 0 <= i < |chain| ==> chain[i] == NO_MATCH || chain[i] < i
  }

  /** Follows the chain of earlier positions from pos, taking whatever makes cur cheaper. */
  function Search(x: seq<Byte>, chain: seq<nat>, d: Table, cur: nat, pos: nat, maxLen: nat, left: nat, acceptLen: nat): (r: (Table, nat))
    requires |chain| == |x| && Chained(chain) && cur < |x| && (pos == NO_MATCH || pos < cur) && maxLen >= 3
    requires |d.cost| == |x| + 1 && |d.mpos| == |x| + 1 && |d.mlen| == |x| + 1
    ensures r.1 <= cur && |r.0.cost| == |x| + 1 && |r.0.mpos| == |x| + 1 && |r.0.mlen| == |x| + 1
    decreases left
  {
    if pos == NO_MATCH || left == 0 then (d, cur)
    else
      var limit := |x| - cur;
      var len := if maxLen < limit && x[pos + maxLen] == x[cur + maxLen] then Common(x, pos, cur, 0, limit) else 0;
      var d' := if len > maxLen then Taken(x, d, cur, pos, maxLen, len) else d;
      if len > maxLen && d'.cost[cur] < d.cost[cur] && pos > 0 && x[pos - 1] == x[cur - 1]
      then
        TakenLength(x, d, cur, pos, maxLen, len);
        Extend(x, d', cur, pos, d'.mlen[cur])
      else if len >= acceptLen || len == limit then (d', cur)
      else Search(x, chain, d', cur, chain[pos], if len > maxLen then len else maxLen, left - 1, acceptLen)
  }

  /** The best of the longer lengths, entered at cur if it is cheaper than what stands there. */
  function Taken(x: seq<Byte>, d: Table, cur: nat, pos: nat, maxLen: nat, len: nat): (r: Table)
    requires pos < cur && 3 <= maxLen < len && cur + len <= |x|
    requires |d.cost| == |x| + 1 && |d.mpos| == |x| + 1 && |d.mlen| == |x| + 1
    ensures |r.cost| == |x| + 1 && |r.mpos| == |x| + 1 && |r.mlen| == |x| + 1
  {
    var best := Cheapest(d.cost, cur, cur - pos - 1, maxLen + 1, len, (0, 0));
    if best.0 < d.cost[cur] then Entered(d, cur, best.0, pos, best.1) else d
  }

  lemma TakenLength(x: seq<Byte>, d: Table, cur: nat, pos: nat, maxLen: nat, len: nat)
    requires pos < cur && 3 <= maxLen < len && cur + len <= |x|
    requires |d.cost| == |x| + 1 && |d.mpos| == |x| + 1 && |d.mlen| == |x| + 1
    ensures var d' := Taken(x, d, cur, pos, maxLen, len);
            d'.cost[cur] < d.cost[cur] ==> 4 <= d'.mlen[cur] <= len
  {
    CheapestIs(d.cost, cur, cur - pos - 1, maxLen + 1, len, (0, 0));
  }

  /** All positions from cur down to 1. */
  function Sweep(x: seq<Byte>, chain: seq<nat>, d: Table, cur: nat, maxDepth: nat, acceptLen: nat): (r: Table)
    requires |chain| == |x| && Chained(chain) && cur < |x|
    requires |d.cost| == |x| + 1 && |d.mpos| == |x| + 1 && |d.mlen| == |x| + 1
    ensures |r.cost| == |x| + 1 && |r.mpos| == |x| + 1 && |r.mlen| == |x| + 1
    decreases cur
  {
    if cur == 0 then d
    else
      var lit := Entered(d, cur, (d.cost[cur + 1] + LITERAL_COST) % WORD, d.mpos[cur], 1);
      var r := Search(x, chain, lit, cur, chain[cur], 3, maxDepth, acceptLen);
      if r.1 == 0 then r.0 else Sweep(x, chain, r.0, r.1 - 1, maxDepth, acceptLen)
  }

  // ---- What the table means ----

  /**
   * The entry at i is a literal or a true match. While costs fit a word, its cost is that of the token and
   * of the rest, and no more than nine bits a byte.
   */
  ghost predicate EntryOk(x: seq<Byte>, d: Table, i: nat) {
    && Sized(d, |x|) && i < |x| && (d.mlen[i] == 1 || TrueMatch(x, i, d.mpos[i], d.mlen[i]))
    && (Exact(|x|) ==>
          && d.cost[i] <= LITERAL_COST * (|x| - i)
          && d.cost[i] == if d.mlen[i] == 1 then LITERAL_COST + d.cost[i + 1]
                          else MatchCost(i - d.mpos[i] - 1, d.mlen[i]) + d.cost[i + d.mlen[i]])
  }

  /** Entries from i on are settled. */
  ghost predicate Settled(x: seq<Byte>, d: Table, i: nat) {
    Sized(d, |x|) && i <= |x| && d.cost[|x|] == 0 && forall k :: i <= k < |x| ==> EntryOk(x, d, k)
  }

  /** Entering a position leaves the settled ones after it settled. */
  lemma EnterSettles(x: seq<Byte>, d: Table, i: nat, cost: nat, pos: nat, len: nat)
    requires Settled(x, d, i + 1) && i < |x| && EntryOk(x, Entered(d, i, cost, pos, len), i)
    ensures Settled(x, Entered(d, i, cost, pos, len), i)
  {
    var r := Entered(d, i, cost, pos, len);
    forall k | i < k < |x| ensures EntryOk(x, r, k) {
      assert EntryOk(x, d, k);
    }
  }

  lemma {:induction false} LogStep(v: nat)
    ensures Log2(v + 1) <= Log2(v) + 1
  {
    if v >= 2 {
      LogStep(v / 2);
      LogMonotone((v + 1) / 2, v / 2 + 1);
    }
  }

  lemma {:induction false} LogMonotone(a: nat, b: nat)
    requires a <= b
    ensures Log2(a) <= Log2(b)
    decreases b
  {
    if a >= 2 {
      LogMonotone(a / 2, b / 2);
    }
  }

  /** A match carried one place to the left stays a true match, and no dearer than nine bits a byte. */
  lemma ExtendOne(x: seq<Byte>, d: Table, cur: nat, pos: nat, len: nat)
    requires Settled(x, d, cur) && TrueMatch(x, cur, pos, len) && pos > 0 && x[pos - 1] == x[cur - 1]
    requires Exact(|x|) ==> MatchCost(cur - pos - 1, len) + d.cost[cur + len] <= LITERAL_COST * (|x| - cur)
    ensures var c := MatchCost(cur - pos - 1, len + 1) + d.cost[cur + len];
            && (Exact(|x|) ==> c <= LITERAL_COST * (|x| - (cur - 1)) && c % WORD == c) && TrueMatch(x, cur - 1, pos - 1, len + 1)
            && Settled(x, Entered(d, cur - 1, c % WORD, pos - 1, len + 1), cur - 1)
  {
    hide MatchCost, Log2, Settled;
    SettledZero(x, d, cur);
    CostStep(cur - pos - 1, len);
    MatchLeft(x, cur, pos, len);
    var c := MatchCost(cur - pos - 1, len + 1) + d.cost[cur + len];
    EnterSettles(x, d, cur - 1, c % WORD, pos - 1, len + 1);
  }

  lemma SettledZero(x: seq<Byte>, d: Table, i: nat)
    requires Settled(x, d, i)
    ensures Sized(d, |x|) && i <= |x|
  {
  }

  lemma CostStep(offs: nat, len: nat)
    requires len >= 4
    ensures MatchCost(offs, len + 1) <= MatchCost(offs, len) + 2
  {
    LogStep(len - 2);
  }

  lemma MatchLeft(x: seq<Byte>, cur: nat, pos: nat, len: nat)
    requires TrueMatch(x, cur, pos, len) && pos > 0 && x[pos - 1] == x[cur - 1]
    ensures TrueMatch(x, cur - 1, pos - 1, len + 1)
  {
    assert x[pos - 1..pos + len] == [x[pos - 1]] + x[pos..pos + len];
    assert x[cur - 1..cur + len] == [x[cur - 1]] + x[cur..cur + len];
  }

  lemma {:induction false} ExtendSettles(x: seq<Byte>, d: Table, cur: nat, pos: nat, len: nat)
    requires Settled(x, d, cur) && TrueMatch(x, cur, pos, len)
    requires Exact(|x|) ==> MatchCost(cur - pos - 1, len) + d.cost[cur + len] <= LITERAL_COST * (|x| - cur)
    ensures var r := Extend(x, d, cur, pos, len); 0 < r.1 && Settled(x, r.0, r.1)
    decreases pos
  {
    hide Settled, EntryOk, MatchCost, Exact;
    SettledZero(x, d, cur);
    if pos > 0 && x[pos - 1] == x[cur - 1] {
      ExtendOne(x, d, cur, pos, len);
      var c := MatchCost(cur - pos - 1, len + 1) + d.cost[cur + len];
      ExtendSettles(x, Entered(d, cur - 1, c % WORD, pos - 1, len + 1), cur - 1, pos - 1, len + 1);
    }
  }

  lemma TakenSettles(x: seq<Byte>, d: Table, cur: nat, pos: nat, maxLen: nat, len: nat)
    requires Settled(x, d, cur) && pos < cur < |x| && 3 <= maxLen < len && cur + len <= |x| && Agree(x, pos, cur, len)
    ensures var d' := Taken(x, d, cur, pos, maxLen, len);
            && Settled(x, d', cur) && d'.cost[cur] <= d.cost[cur]
            && (d'.cost[cur] < d.cost[cur] ==>
                  TrueMatch(x, cur, pos, d'.mlen[cur]) && d'.cost[cur] == MatchCost(cur - pos - 1, d'.mlen[cur]) + d'.cost[cur + d'.mlen[cur]])
  {
    CheapestIs(d.cost, cur, cur - pos - 1, maxLen + 1, len, (0, 0));
    var best := Cheapest(d.cost, cur, cur - pos - 1, maxLen + 1, len, (0, 0));
    if best.0 < d.cost[cur] {
      AgreeFewer(x, pos, cur, len, best.1);
      assert EntryOk(x, d, cur);
      assert Settled(x, d, cur + 1);
      EnterSettles(x, d, cur, best.0, pos, best.1);
    }
  }

  lemma {:induction false} SearchSettles(x: seq<Byte>, chain: seq<nat>, d: Table, cur: nat, pos: nat, maxLen: nat, left: nat, acceptLen: nat)
    requires |chain| == |x| && Chained(chain) && 0 < cur < |x| && (pos == NO_MATCH || pos < cur) && maxLen >= 3
    requires Settled(x, d, cur)
    ensures var r := Search(x, chain, d, cur, pos, maxLen, left, acceptLen); 0 < r.1 <= cur && Settled(x, r.0, r.1)
    decreases left
  {
    hide Settled, Taken, Extend, Common, Cheapest, EntryOk, MatchCost, TrueMatch, Search, Agree, Exact;
    SettledZero(x, d, cur);
    if pos == NO_MATCH || left == 0 {
      SearchOver(x, chain, d, cur, pos, maxLen, left, acceptLen);
    } else {
      var len, d' := Looked(x, d, cur, pos, maxLen);
      SearchOn(x, chain, d, cur, pos, maxLen, left, acceptLen, len, d');
      if len > maxLen && d'.cost[cur] < d.cost[cur] && pos > 0 && x[pos - 1] == x[cur - 1] {
        CheapAt(x, d', cur);
        ExtendSettles(x, d', cur, pos, d'.mlen[cur]);
      } else if !(len >= acceptLen || len == |x| - cur) {
        SearchSettles(x, chain, d', cur, chain[pos], if len > maxLen then len else maxLen, left - 1, acceptLen);
      }
    }
  }

  lemma SearchOver(x: seq<Byte>, chain: seq<nat>, d: Table, cur: nat, pos: nat, maxLen: nat, left: nat, acceptLen: nat)
    requires |chain| == |x| && Chained(chain) && cur < |x| && (pos == NO_MATCH || pos < cur) && maxLen >= 3
    requires Sized(d, |x|) && (pos == NO_MATCH || left == 0)
    ensures Search(x, chain, d, cur, pos, maxLen, left, acceptLen) == (d, cur)
  {
  }

  /** Looking at one position of the chain: how far it matches, and the table after taking what it offers. */
  lemma Looked(x: seq<Byte>, d: Table, cur: nat, pos: nat, maxLen: nat) returns (len: nat, d': Table)
    requires Settled(x, d, cur) && pos < cur < |x| && maxLen >= 3
    ensures len == if maxLen < |x| - cur && x[pos + maxLen] == x[cur + maxLen] then Common(x, pos, cur, 0, |x| - cur) else 0
    ensures Sized(d, |x|) && Sized(d', |x|) && Settled(x, d', cur) && len <= |x| - cur
    ensures d' == if len > maxLen then Taken(x, d, cur, pos, maxLen, len) else d
    ensures d'.cost[cur] < d.cost[cur] ==>
              TrueMatch(x, cur, pos, d'.mlen[cur])
              && (Exact(|x|) ==> d'.cost[cur] == MatchCost(cur - pos - 1, d'.mlen[cur]) + d'.cost[cur + d'.mlen[cur]])
  {
    hide Settled, Taken, Common, MatchCost, EntryOk, Exact, TrueMatch, Cheapest;
    SettledZero(x, d, cur);
    len := if maxLen < |x| - cur && x[pos + maxLen] == x[cur + maxLen] then Common(x, pos, cur, 0, |x| - cur) else 0;
    LongestTrue(x, pos, cur);
    d' := d;
    if len > maxLen {
      TakenSettles(x, d, cur, pos, maxLen, len);
      d' := Taken(x, d, cur, pos, maxLen, len);
    }
  }

  lemma LongestTrue(x: seq<Byte>, pos: nat, cur: nat)
    requires pos < cur < |x|
    ensures Agree(x, pos, cur, Common(x, pos, cur, 0, |x| - cur))
  {
    assert Agree(x, pos, cur, 0);
    CommonAgrees(x, pos, cur, 0, |x| - cur);
  }

  lemma SearchOn(x: seq<Byte>, chain: seq<nat>, d: Table, cur: nat, pos: nat, maxLen: nat, left: nat, acceptLen: nat, len: nat, d': Table)
    requires |chain| == |x| && Chained(chain) && pos < cur < |x| && pos != NO_MATCH && maxLen >= 3 && left > 0
    requires Sized(d, |x|) && len <= |x| - cur
    requires len == if maxLen < |x| - cur && x[pos + maxLen] == x[cur + maxLen] then Common(x, pos, cur, 0, |x| - cur) else 0
    requires d' == if len > maxLen then Taken(x, d, cur, pos, maxLen, len) else d
    ensures Sized(d', |x|) && (chain[pos] == NO_MATCH || chain[pos] < cur)
    ensures d'.cost[cur] < d.cost[cur] ==> 4 <= d'.mlen[cur] <= len
    ensures Search(x, chain, d, cur, pos, maxLen, left, acceptLen)
            == if len > maxLen && d'.cost[cur] < d.cost[cur] && pos > 0 && x[pos - 1] == x[cur - 1] then Extend(x, d', cur, pos, d'.mlen[cur])
               else if len >= acceptLen || len == |x| - cur then (d', cur)
               else Search(x, chain, d', cur, chain[pos], if len > maxLen then len else maxLen, left - 1, acceptLen)
  {
    hide Taken, Extend, Common;
    if len > maxLen {
      TakenLength(x, d, cur, pos, maxLen, len);
    }
  }

  lemma CheapAt(x: seq<Byte>, d: Table, i: nat)
    requires Settled(x, d, i) && i < |x|
    ensures Sized(d, |x|) && (Exact(|x|) ==> d.cost[i] <= LITERAL_COST * (|x| - i))
  {
    assert EntryOk(x, d, i);
  }

  /** Every entry from 1 on is a true token, with the cost of the path it starts. */
  lemma {:induction false} SweepSettles(x: seq<Byte>, chain: seq<nat>, d: Table, cur: nat, maxDepth: nat, acceptLen: nat)
    requires |chain| == |x| && Chained(chain) && cur < |x| && Settled(x, d, cur + 1)
    ensures Settled(x, Sweep(x, chain, d, cur, maxDepth, acceptLen), 1)
    decreases cur
  {
    hide Settled, EntryOk, Entered, Search, Exact;
    SettledZero(x, d, cur + 1);
    if cur > 0 {
      var lit := LiteralSettles(x, d, cur);
      SearchSettles(x, chain, lit, cur, chain[cur], 3, maxDepth, acceptLen);
      var r := Search(x, chain, lit, cur, chain[cur], 3, maxDepth, acceptLen);
      SettledZero(x, r.0, r.1);
      SweepSettles(x, chain, r.0, r.1 - 1, maxDepth, acceptLen);
    } else {
      SweepOver(x, chain, d, maxDepth, acceptLen);
    }
  }

  lemma SweepOver(x: seq<Byte>, chain: seq<nat>, d: Table, maxDepth: nat, acceptLen: nat)
    requires |chain| == |x| && Chained(chain) && 0 < |x| && Sized(d, |x|)
    ensures Sweep(x, chain, d, 0, maxDepth, acceptLen) == d
  {
  }

  /** A literal's entry is settled. */
  lemma LiteralSettles(x: seq<Byte>, d: Table, cur: nat) returns (lit: Table)
    requires 0 < cur < |x| && Settled(x, d, cur + 1)
    ensures Sized(d, |x|) && lit == Entered(d, cur, (d.cost[cur + 1] + LITERAL_COST) % WORD, d.mpos[cur], 1)
    ensures Settled(x, lit, cur) && Sized(lit, |x|)
  {
    hide MatchCost, TrueMatch;
    lit := Entered(d, cur, (d.cost[cur + 1] + LITERAL_COST) % WORD, d.mpos[cur], 1);
    assert cur + 1 < |x| ==> EntryOk(x, d, cur + 1);
    EnterSettles(x, d, cur, (d.cost[cur + 1] + LITERAL_COST) % WORD, d.mpos[cur], 1);
  }

  /** The tokens met when following the table from i. */
  ghost function Path(x: seq<Byte>, d: Table, i: nat): seq<Token>
    requires Settled(x, d, 1) && 1 <= i <= |x|
    decreases |x| - i
  {
    if i == |x| then []
    else
      assert EntryOk(x, d, i);
      [if d.mlen[i] == 1 then Literal else Match(d.mpos[i], d.mlen[i])] + Path(x, d, i + d.mlen[i])
  }

  /** They spell x, and cost what the table says. */
  lemma {:induction false} PathParses(x: seq<Byte>, d: Table, i: nat)
    requires Settled(x, d, 1) && 1 <= i <= |x|
    ensures Parses(x, i, Path(x, d, i)) && (Exact(|x|) ==> ParseCost(x, i, Path(x, d, i)) == d.cost[i])
    decreases |x| - i
  {
    if i < |x| {
      hide Settled, EntryOk, TrueMatch, MatchCost, TokenCost, Path, Fits;
      var t := PathFirst(x, d, i);
      PathParses(x, d, i + Length(t));
      ParsesFirst(x, i, t, Path(x, d, i + Length(t)));
      CostFirst(x, i, t, Path(x, d, i + Length(t)));
    }
  }

  lemma PathFirst(x: seq<Byte>, d: Table, i: nat) returns (t: Token)
    requires Settled(x, d, 1) && 1 <= i < |x|
    ensures i + Length(t) <= |x| && Sized(d, |x|) && Length(t) > 0 && Path(x, d, i) == [t] + Path(x, d, i + Length(t))
    ensures Fits(x, i, t) && (t.Match? ==> t.len >= 4 && t.pos < i)
    ensures Exact(|x|) ==> d.cost[i] == TokenCost(i, t) + d.cost[i + Length(t)]
  {
    hide MatchCost;
    assert EntryOk(x, d, i);
    t := if d.mlen[i] == 1 then Literal else Match(d.mpos[i], d.mlen[i]);
  }

  lemma CostFirst(x: seq<Byte>, i: nat, t: Token, ts: seq<Token>)
    requires Fits(x, i, t) && (t.Match? ==> t.len >= 4 && t.pos < i) && Parses(x, i + Length(t), ts) && Parses(x, i, [t] + ts)
    ensures ParseCost(x, i, [t] + ts) == TokenCost(i, t) + ParseCost(x, i + Length(t), ts)
  {
    hide TokenCost;
    assert ([t] + ts)[1..] == ts;
  }

  // ---- Costs stay within a word ----

  lemma {:induction false} LogBound(v: nat)
    ensures Log2(v) <= v
  {
    if v >= 2 {
      LogBound(v / 2);
    }
  }

  /** With 9 * n below 2^32, no cost that is looked at reaches the largest word. */
  lemma NoOverflow(x: seq<Byte>, d: Table, cur: nat, pos: nat, len: nat)
    requires Settled(x, d, cur + 1) && pos < cur && len >= 4 && cur + len <= |x| && Exact(|x|)
    ensures MatchCost(cur - pos - 1, len) < WORD - 1 - d.cost[cur + len]
  {
    var offs := cur - pos - 1;
    LogBound(len - 2);
    LogBound(offs / 256 + 2);
    if cur + len < |x| {
      assert EntryOk(x, d, cur + len);
    }
  }

  // ---- What was in the table before does not matter ----

  /** From i on the two tables tell the same; the position of a literal is not looked at. */
  ghost predicate SameFrom(d: Table, e: Table, n: nat, i: nat) {
    && Sized(d, n) && Sized(e, n) && i <= n && d.cost[n] == e.cost[n]
    && forall k :: i <= k < n ==> SameEntry(d, e, n, k)
  }

  ghost predicate SameEntry(d: Table, e: Table, n: nat, k: nat)
    requires Sized(d, n) && Sized(e, n) && k < n
  {
    d.cost[k] == e.cost[k] && d.mlen[k] == e.mlen[k] && (d.mlen[k] != 1 ==> d.mpos[k] == e.mpos[k])
  }

  lemma SameCost(d: Table, e: Table, n: nat, i: nat, k: nat)
    requires SameFrom(d, e, n, i) && i <= k <= n
    ensures Sized(d, n) && Sized(e, n) && d.cost[k] == e.cost[k] && (k < n ==> d.mlen[k] == e.mlen[k])
  {
    assert k < n ==> SameEntry(d, e, n, k);
  }

  /** Entering the same at the same place; a literal at any position. */
  lemma SameEntered(d: Table, e: Table, n: nat, i: nat, j: nat, cost: nat, pos: nat, pos': nat, len: nat)
    requires SameFrom(d, e, n, i) && i <= j + 1 && j < n && (len != 1 ==> pos == pos')
    ensures j < i ==> SameFrom(Entered(d, j, cost, pos, len), Entered(e, j, cost, pos', len), n, j)
    ensures i <= j ==> SameFrom(Entered(d, j, cost, pos, len), Entered(e, j, cost, pos', len), n, i)
  {
    var d', e' := Entered(d, j, cost, pos, len), Entered(e, j, cost, pos', len);
    forall k | 0 <= k < n && k != j && i <= k ensures SameEntry(d', e', n, k) {
      assert SameEntry(d, e, n, k);
    }
    assert SameEntry(d', e', n, j);
  }

  lemma {:induction false} CheapestSame(d: Table, e: Table, n: nat, cur: nat, offs: nat, i: nat, len: nat, best: (nat, nat))
    requires SameFrom(d, e, n, cur) && 4 <= i <= len + 1 && cur + len <= n
    ensures Sized(d, n) && Sized(e, n) && Cheapest(d.cost, cur, offs, i, len, best) == Cheapest(e.cost, cur, offs, i, len, best)
    decreases len + 1 - i
  {
    hide SameFrom, MatchCost;
    SameCost(d, e, n, cur, n);
    if i <= len {
      SameCost(d, e, n, cur, cur + i);
      var here := MatchCost(offs, i) + d.cost[cur + i];
      CheapestSame(d, e, n, cur, offs, i + 1, len, if best.1 == 0 || here < best.0 then (here, i) else best);
    }
  }

  lemma TakenSame(x: seq<Byte>, d: Table, e: Table, cur: nat, pos: nat, maxLen: nat, len: nat)
    requires SameFrom(d, e, |x|, cur) && pos < cur && 3 <= maxLen < len && cur + len <= |x|
    ensures SameFrom(Taken(x, d, cur, pos, maxLen, len), Taken(x, e, cur, pos, maxLen, len), |x|, cur)
  {
    hide SameFrom, Cheapest, Entered;
    CheapestSame(d, e, |x|, cur, cur - pos - 1, maxLen + 1, len, (0, 0));
    SameCost(d, e, |x|, cur, cur);
    var best := Cheapest(d.cost, cur, cur - pos - 1, maxLen + 1, len, (0, 0));
    SameEntered(d, e, |x|, cur, cur, best.0, pos, pos, best.1);
  }

  lemma {:induction false} ExtendSame(x: seq<Byte>, d: Table, e: Table, cur: nat, pos: nat, len: nat)
    requires SameFrom(d, e, |x|, cur) && pos < cur && cur + len <= |x| && len >= 4
    ensures var r, q := Extend(x, d, cur, pos, len), Extend(x, e, cur, pos, len); r.1 == q.1 && SameFrom(r.0, q.0, |x|, r.1)
    decreases pos
  {
    hide SameFrom, MatchCost, Entered;
    SameCost(d, e, |x|, cur, cur + len);
    if pos > 0 && x[pos - 1] == x[cur - 1] {
      var c := (MatchCost(cur - pos - 1, len + 1) + d.cost[cur + len]) % WORD;
      SameEntered(d, e, |x|, cur, cur - 1, c, pos - 1, pos - 1, len + 1);
      ExtendSame(x, Entered(d, cur - 1, c, pos - 1, len + 1), Entered(e, cur - 1, c, pos - 1, len + 1), cur - 1, pos - 1, len + 1);
    }
  }

  lemma {:induction false} SearchSame(x: seq<Byte>, chain: seq<nat>, d: Table, e: Table, cur: nat, pos: nat, maxLen: nat, left: nat, acceptLen: nat)
    requires |chain| == |x| && Chained(chain) && cur < |x| && (pos == NO_MATCH || pos < cur) && maxLen >= 3 && SameFrom(d, e, |x|, cur)
    ensures var r, q := Search(x, chain, d, cur, pos, maxLen, left, acceptLen), Search(x, chain, e, cur, pos, maxLen, left, acceptLen);
            r.1 == q.1 && SameFrom(r.0, q.0, |x|, r.1)
    decreases left
  {
    hide SameFrom, Taken, Extend, Common, Search;
    SameCost(d, e, |x|, cur, cur);
    if pos == NO_MATCH || left == 0 {
      SearchOver(x, chain, d, cur, pos, maxLen, left, acceptLen);
      SearchOver(x, chain, e, cur, pos, maxLen, left, acceptLen);
    } else {
      var len := if maxLen < |x| - cur && x[pos + maxLen] == x[cur + maxLen] then Common(x, pos, cur, 0, |x| - cur) else 0;
      if len > maxLen { TakenSame(x, d, e, cur, pos, maxLen, len); }
      var d', e' := if len > maxLen then Taken(x, d, cur, pos, maxLen, len) else d, if len > maxLen then Taken(x, e, cur, pos, maxLen, len) else e;
      SearchOn(x, chain, d, cur, pos, maxLen, left, acceptLen, len, d');
      SearchOn(x, chain, e, cur, pos, maxLen, left, acceptLen, len, e');
      SameCost(d', e', |x|, cur, cur);
      if len > maxLen && d'.cost[cur] < d.cost[cur] && pos > 0 && x[pos - 1] == x[cur - 1] {
        ExtendSame(x, d', e', cur, pos, d'.mlen[cur]);
      } else if !(len >= acceptLen || len == |x| - cur) {
        SearchSame(x, chain, d', e', cur, chain[pos], if len > maxLen then len else maxLen, left - 1, acceptLen);
      }
    }
  }

  lemma {:induction false} SweepSame(x: seq<Byte>, chain: seq<nat>, d: Table, e: Table, cur: nat, maxDepth: nat, acceptLen: nat)
    requires |chain| == |x| && Chained(chain) && cur < |x| && SameFrom(d, e, |x|, cur + 1)
    ensures SameFrom(Sweep(x, chain, d, cur, maxDepth, acceptLen), Sweep(x, chain, e, cur, maxDepth, acceptLen), |x|, 1)
    decreases cur
  {
    hide SameFrom, Search, Entered;
    SameCost(d, e, |x|, cur + 1, cur + 1);
    if cur > 0 {
      var c := (d.cost[cur + 1] + LITERAL_COST) % WORD;
      var lit, lit' := Entered(d, cur, c, d.mpos[cur], 1), Entered(e, cur, c, e.mpos[cur], 1);
      SameEntered(d, e, |x|, cur + 1, cur, c, d.mpos[cur], e.mpos[cur], 1);
      SearchSame(x, chain, lit, lit', cur, chain[cur], 3, maxDepth, acceptLen);
      var r, q := Search(x, chain, lit, cur, chain[cur], 3, maxDepth, acceptLen), Search(x, chain, lit', cur, chain[cur], 3, maxDepth, acceptLen);
      if r.1 == 0 {
        SameLater(r.0, q.0, |x|, 0, 1);
      } else {
        SweepSame(x, chain, r.0, q.0, r.1 - 1, maxDepth, acceptLen);
      }
    }
  }

  lemma SameLater(d: Table, e: Table, n: nat, i: nat, j: nat)
    requires SameFrom(d, e, n, i) && i <= j <= n
    ensures SameFrom(d, e, n, j)
  {
  }

  /** Tables that tell the same have the same path. */
  lemma {:induction false} PathSame(x: seq<Byte>, d: Table, e: Table, i: nat)
    requires Settled(x, d, 1) && Settled(x, e, 1) && SameFrom(d, e, |x|, 1) && 1 <= i <= |x|
    ensures Path(x, d, i) == Path(x, e, i)
    decreases |x| - i
  {
    if i < |x| {
      assert SameEntry(d, e, |x|, i);
      assert EntryOk(x, d, i) && EntryOk(x, e, i);
      PathSame(x, d, e, i + d.mlen[i]);
    }
  }
}
