/** What the backwards parse of levels 5 to 7 chooses: which matches it weighs at every position, and what it takes. */
module BlzLeparseChoice {
  import opened Permutations
  import opened BlzTokens
  import opened BlzPack
  import opened BlzCost
  import opened BlzLeparse
  import opened BlzLeparseShared
  import opened BlzForward

  /** Length k of the match of i with p does not lead to the end for less than the table has it. */
  ghost predicate NoDearer(d: Table, i: nat, p: nat, k: nat)
    requires p < i && 4 <= k && i + k < |d.cost|
  {
    d.cost[i] <= MatchCost(i - p - 1, k) + d.cost[i + k]
  }

  /** No length of the match of i with p leads to the end for less than the table has it. */
  ghost predicate Beats(x: seq<Byte>, d: Table, i: nat, p: nat) {
    && Sized(d, |x|) && p < i
    && forall k :: 4 <= k && Agree(x, p, i, k) ==> NoDearer(d, i, p, k)
  }

  /** The entry of i is that of i + 1 carried one to the left. */
  ghost predicate Carried(d: Table, i: nat) {
    && i + 1 < |d.mlen| && i + 1 < |d.mpos|
    && d.mlen[i + 1] >= 4 && d.mlen[i] == d.mlen[i + 1] + 1 && d.mpos[i] + 1 == d.mpos[i + 1]
  }

  /** A match that is long enough, or goes on to the end of the input, ends a search. */
  ghost predicate Enough(x: seq<Byte>, i: nat, p: nat, acceptLen: nat) {
    i <= |x| && (Agree(x, p, i, acceptLen) || Agree(x, p, i, |x| - i))
  }

  /**
   * Up to `left` positions from p along the chain have been weighed at i; fewer only if one was enough, or a
   * match was carried to the left from here.
   */
  ghost predicate Weighed(x: seq<Byte>, chain: seq<nat>, d: Table, i: nat, p: nat, left: nat, acceptLen: nat, carried: bool)
    requires |chain| == |x| && Chained(chain) && i < |x|
    decreases left
  {
    p == NO_MATCH || left == 0
    || (p < i && Beats(x, d, i, p) && (carried || Enough(x, i, p, acceptLen) || Weighed(x, chain, d, i, chain[p], left - 1, acceptLen, carried)))
  }

  /** What the table has at i is carried from the right, or no more than a literal and all matches weighed make of it. */
  ghost predicate Considered(x: seq<Byte>, chain: seq<nat>, d: Table, i: nat, maxDepth: nat, acceptLen: nat)
    requires |chain| == |x| && Chained(chain) && 1 <= i < |x|
  {
    && Sized(d, |x|)
    && (Carried(d, i) || (d.cost[i] <= d.cost[i + 1] + LITERAL_COST
                          && Weighed(x, chain, d, i, chain[i], maxDepth, acceptLen, i > 1 && Carried(d, i - 1))))
  }

  // ---- One search ----

  /** Lengths up to maxLen are no cheaper with positions from p back. */
  ghost predicate Known(x: seq<Byte>, d: Table, i: nat, p: nat, maxLen: nat) {
    && Sized(d, |x|) && p < i
    && forall k :: 4 <= k <= maxLen && i + k <= |x| ==> NoDearer(d, i, p, k)
  }

  lemma KnownFurther(x: seq<Byte>, d: Table, i: nat, p: nat, q: nat, maxLen: nat)
    requires Known(x, d, i, p, maxLen) && q <= p
    ensures Known(x, d, i, q, maxLen)
  {
    hide MatchCost;
    forall k | 4 <= k <= maxLen && i + k <= |x| ensures NoDearer(d, i, q, k) {
      assert NoDearer(d, i, p, k);
      MatchCostMonotone(i - p - 1, i - q - 1, k);
    }
  }

  /** Entries behind i are the same, and i has become no dearer. */
  ghost predicate Lower(d: Table, e: Table, n: nat, i: nat) {
    && Sized(d, n) && Sized(e, n) && i <= n && e.cost[i] <= d.cost[i]
    && forall k :: i < k <= n ==> e.cost[k] == d.cost[k] && (k < n ==> e.mlen[k] == d.mlen[k] && e.mpos[k] == d.mpos[k])
  }

  lemma BeatsLower(x: seq<Byte>, d: Table, e: Table, i: nat, p: nat)
    requires Beats(x, d, i, p) && Lower(d, e, |x|, i)
    ensures Beats(x, e, i, p)
  {
    hide MatchCost;
    forall k | 4 <= k && Agree(x, p, i, k) ensures NoDearer(e, i, p, k) {
      assert NoDearer(d, i, p, k);
    }
  }

  /** Looking at p makes its match no cheaper than what stands at i, at any length. */
  lemma TakenBeats(x: seq<Byte>, d: Table, i: nat, p: nat, maxLen: nat, len: nat)
    requires Known(x, d, i, p, maxLen) && i < |x| && maxLen >= 3
    requires len == if maxLen < |x| - i && x[p + maxLen] == x[i + maxLen] then Common(x, p, i, 0, |x| - i) else 0
    ensures var e := if len > maxLen then Taken(x, d, i, p, maxLen, len) else d;
            && Lower(d, e, |x|, i) && Beats(x, e, i, p) && Known(x, e, i, p, if len > maxLen then len else maxLen)
  {
    hide MatchCost, Cheapest, Common;
    var e, limit := if len > maxLen then Taken(x, d, i, p, maxLen, len) else d, if len > maxLen then len else maxLen;
    if len > maxLen {
      CheapestIs(d.cost, i, i - p - 1, maxLen + 1, len, (0, 0));
    }
    forall k | 4 <= k <= limit && i + k <= |x| ensures NoDearer(e, i, p, k) {
      assert k <= maxLen ==> NoDearer(d, i, p, k);
    }
    forall k | 4 <= k && Agree(x, p, i, k) ensures NoDearer(e, i, p, k) {
      if k > maxLen {
        assert x[p..p + k][maxLen] == x[i..i + k][maxLen];
        CommonAtLeast(x, p, i, 0, |x| - i, k);
      }
    }
  }

  lemma {:induction false} ExtendKeeps(x: seq<Byte>, d: Table, cur: nat, pos: nat, len: nat)
    requires pos < cur && cur + len <= |x| && len >= 4 && Sized(d, |x|)
    ensures var r := Extend(x, d, cur, pos, len);
            && (forall k :: cur <= k <= |x| ==> r.0.cost[k] == d.cost[k] && r.0.mlen[k] == d.mlen[k] && r.0.mpos[k] == d.mpos[k])
    decreases pos
  {
    hide MatchCost;
    if pos > 0 && x[pos - 1] == x[cur - 1] {
      var c := MatchCost(cur - pos - 1, len + 1) + d.cost[cur + len];
      ExtendKeeps(x, Entered(d, cur - 1, c % WORD, pos - 1, len + 1), cur - 1, pos - 1, len + 1);
    }
  }

  /** Every position a match is carried to has it from the one behind it. */
  lemma {:induction false} ExtendCarries(x: seq<Byte>, d: Table, cur: nat, pos: nat, len: nat)
    requires pos < cur && cur + len <= |x| && len >= 4 && Sized(d, |x|) && d.mlen[cur] == len && d.mpos[cur] == pos
    ensures var r := Extend(x, d, cur, pos, len); r.1 > 0 && forall i :: r.1 <= i < cur ==> Carried(r.0, i)
    decreases pos
  {
    hide MatchCost;
    if pos > 0 && x[pos - 1] == x[cur - 1] {
      var c := MatchCost(cur - pos - 1, len + 1) + d.cost[cur + len];
      var e := Entered(d, cur - 1, c % WORD, pos - 1, len + 1);
      ExtendCarries(x, e, cur - 1, pos - 1, len + 1);
      ExtendKeeps(x, e, cur - 1, pos - 1, len + 1);
      assert Carried(Extend(x, d, cur, pos, len).0, cur - 1);
    }
  }

  /** What a search leaves: everything up to its depth weighed, what is behind as it was, and what was carried in place. */
  ghost predicate Searched(x: seq<Byte>, chain: seq<nat>, d: Table, cur: nat, pos: nat, left: nat, acceptLen: nat, r: (Table, nat))
    requires |chain| == |x| && Chained(chain) && cur < |x|
  {
    && Sized(r.0, |x|) && 0 < r.1 <= cur && Lower(d, r.0, |x|, cur)
    && Weighed(x, chain, r.0, cur, pos, left, acceptLen, r.1 < cur)
    && forall i :: r.1 <= i < cur ==> Carried(r.0, i)
  }

  lemma {:induction false} SearchWeighs(x: seq<Byte>, chain: seq<nat>, d: Table, cur: nat, pos: nat, maxLen: nat, left: nat, acceptLen: nat)
    requires |chain| == |x| && Chained(chain) && 0 < cur < |x| && (pos == NO_MATCH || pos < cur) && maxLen >= 3 && |x| < NO_MATCH
    requires Sized(d, |x|) && (pos != NO_MATCH ==> Known(x, d, cur, pos, maxLen))
    ensures Searched(x, chain, d, cur, pos, left, acceptLen, Search(x, chain, d, cur, pos, maxLen, left, acceptLen))
    decreases left
  {
    hide Taken, Extend, Common, Search, Beats, Known, Carried, Enough, Lower;
    LowerSelf(d, |x|, cur);
    if pos == NO_MATCH || left == 0 {
      SearchOver(x, chain, d, cur, pos, maxLen, left, acceptLen);
    } else {
      var len := if maxLen < |x| - cur && x[pos + maxLen] == x[cur + maxLen] then Common(x, pos, cur, 0, |x| - cur) else 0;
      var d', more := if len > maxLen then Taken(x, d, cur, pos, maxLen, len) else d, if len > maxLen then len else maxLen;
      TakenBeats(x, d, cur, pos, maxLen, len);
      SearchOn(x, chain, d, cur, pos, maxLen, left, acceptLen, len, d');
      if len > maxLen && d'.cost[cur] < d.cost[cur] && pos > 0 && x[pos - 1] == x[cur - 1] {
        SearchExtends(x, d, cur, pos, maxLen, len);
        LowerTwice(d, d', Extend(x, d', cur, pos, d'.mlen[cur]).0, |x|, cur);
        BeatsLower(x, d', Extend(x, d', cur, pos, d'.mlen[cur]).0, cur, pos);
      } else if len >= acceptLen || len == |x| - cur {
        LongEnough(x, cur, pos, maxLen, acceptLen, len);
      } else {
        if chain[pos] != NO_MATCH {
          KnownFurther(x, d', cur, pos, chain[pos], more);
        }
        SearchWeighs(x, chain, d', cur, chain[pos], more, left - 1, acceptLen);
        var r := Search(x, chain, d', cur, chain[pos], more, left - 1, acceptLen);
        LowerTwice(d, d', r.0, |x|, cur);
        BeatsLower(x, d', r.0, cur, pos);
      }
    }
  }

  lemma LowerSelf(d: Table, n: nat, i: nat)
    requires Sized(d, n) && i <= n
    ensures Lower(d, d, n, i)
  {
  }

  lemma LowerTwice(d: Table, e: Table, f: Table, n: nat, i: nat)
    requires Lower(d, e, n, i) && Lower(e, f, n, i)
    ensures Lower(d, f, n, i)
  {
  }

  lemma LongEnough(x: seq<Byte>, i: nat, p: nat, maxLen: nat, acceptLen: nat, len: nat)
    requires p < i < |x| && len == if maxLen < |x| - i && x[p + maxLen] == x[i + maxLen] then Common(x, p, i, 0, |x| - i) else 0
    requires len >= acceptLen || len == |x| - i
    ensures Enough(x, i, p, acceptLen)
  {
    hide Common;
    assert Agree(x, p, i, 0);
    CommonAgrees(x, p, i, 0, |x| - i);
    assert Agree(x, p, i, len);
    if len >= acceptLen {
      AgreeFewer(x, p, i, len, acceptLen);
    }
  }

  /** A match that made i cheaper and can be carried to the left is. */
  lemma SearchExtends(x: seq<Byte>, d: Table, cur: nat, pos: nat, maxLen: nat, len: nat)
    requires pos < cur < |x| && 3 <= maxLen < len && cur + len <= |x| && Sized(d, |x|) && pos > 0 && x[pos - 1] == x[cur - 1]
    requires Taken(x, d, cur, pos, maxLen, len).cost[cur] < d.cost[cur]
    ensures var e := Taken(x, d, cur, pos, maxLen, len);
            && 4 <= e.mlen[cur] <= len
            && var r := Extend(x, e, cur, pos, e.mlen[cur]);
               0 < r.1 < cur && Lower(e, r.0, |x|, cur) && forall i :: r.1 <= i < cur ==> Carried(r.0, i)
  {
    hide MatchCost, Extend, Cheapest;
    var e := Taken(x, d, cur, pos, maxLen, len);
    TakenLength(x, d, cur, pos, maxLen, len);
    ExtendKeeps(x, e, cur, pos, e.mlen[cur]);
    ExtendCarries(x, e, cur, pos, e.mlen[cur]);
    ExtendGoes(x, e, cur, pos, e.mlen[cur]);
  }

  lemma ExtendGoes(x: seq<Byte>, d: Table, cur: nat, pos: nat, len: nat)
    requires 0 < pos < cur && cur + len <= |x| && len >= 4 && Sized(d, |x|) && x[pos - 1] == x[cur - 1]
    ensures Extend(x, d, cur, pos, len).1 < cur
  {
  }

  // ---- The whole sweep ----

  /** Entries behind cur are the same. */
  ghost predicate SameBehind(d: Table, e: Table, n: nat, cur: nat) {
    && Sized(d, n) && Sized(e, n)
    && forall k :: cur < k <= n ==> e.cost[k] == d.cost[k] && (k < n ==> e.mlen[k] == d.mlen[k] && e.mpos[k] == d.mpos[k])
  }

  lemma {:induction false} WeighedSame(x: seq<Byte>, chain: seq<nat>, d: Table, e: Table, i: nat, p: nat, left: nat, acceptLen: nat, c: bool, c': bool)
    requires |chain| == |x| && Chained(chain) && 0 < i < |x| && (c ==> c') && SameBehind(d, e, |x|, i - 1)
    requires Weighed(x, chain, d, i, p, left, acceptLen, c)
    ensures Weighed(x, chain, e, i, p, left, acceptLen, c')
    decreases left
  {
    hide Enough, Beats, MatchCost;
    if p != NO_MATCH && left != 0 {
      BeatsSame(x, d, e, i, p);
      if !c && !Enough(x, i, p, acceptLen) {
        WeighedSame(x, chain, d, e, i, chain[p], left - 1, acceptLen, c, c');
      }
    }
  }

  lemma BeatsSame(x: seq<Byte>, d: Table, e: Table, i: nat, p: nat)
    requires Beats(x, d, i, p) && 0 < i < |x| && SameBehind(d, e, |x|, i - 1)
    ensures Beats(x, e, i, p)
  {
    hide MatchCost;
    forall k | 4 <= k && Agree(x, p, i, k) ensures NoDearer(e, i, p, k) {
      assert NoDearer(d, i, p, k);
    }
  }

  /** After the sweep everything has been considered at every position, and entries behind are as they were. */
  lemma {:induction false} SweepConsiders(x: seq<Byte>, chain: seq<nat>, d: Table, cur: nat, maxDepth: nat, acceptLen: nat)
    requires |chain| == |x| && Chained(chain) && cur < |x| < NO_MATCH && Sized(d, |x|)
    ensures var f := Sweep(x, chain, d, cur, maxDepth, acceptLen);
            SameBehind(d, f, |x|, cur) && forall i :: 1 <= i <= cur ==> Considered(x, chain, f, i, maxDepth, acceptLen)
    decreases cur
  {
    hide Search, Weighed, Considered, SameBehind;
    if cur == 0 {
      SweepOver(x, chain, d, maxDepth, acceptLen);
      SameSelf(d, |x|, 0);
    } else {
      var lit := Entered(d, cur, (d.cost[cur + 1] + LITERAL_COST) % WORD, d.mpos[cur], 1);
      assert chain[cur] == NO_MATCH || Known(x, lit, cur, chain[cur], 3);
      SearchWeighs(x, chain, lit, cur, chain[cur], 3, maxDepth, acceptLen);
      var r := Search(x, chain, lit, cur, chain[cur], 3, maxDepth, acceptLen);
      var f := Sweep(x, chain, r.0, r.1 - 1, maxDepth, acceptLen);
      SweepConsiders(x, chain, r.0, r.1 - 1, maxDepth, acceptLen);
      StepBehind(d, lit, r.0, f, |x|, cur, r.1);
      forall i | 1 <= i <= cur ensures Considered(x, chain, f, i, maxDepth, acceptLen) {
        if i >= r.1 {
          StepConsiders(x, chain, lit, r, f, cur, maxDepth, acceptLen, i);
        }
      }
    }
  }

  lemma SameSelf(d: Table, n: nat, cur: nat)
    requires Sized(d, n)
    ensures SameBehind(d, d, n, cur)
  {
  }

  lemma StepBehind(d: Table, lit: Table, e: Table, f: Table, n: nat, cur: nat, to: nat)
    requires 0 < to <= cur < n && Sized(d, n) && SameBehind(d, lit, n, cur) && Lower(lit, e, n, cur) && SameBehind(e, f, n, to - 1)
    ensures SameBehind(d, f, n, cur)
  {
  }

  /** What a search left at cur, and what it carried from there, stands to the end. */
  lemma StepConsiders(x: seq<Byte>, chain: seq<nat>, lit: Table, r: (Table, nat), f: Table, cur: nat, maxDepth: nat, acceptLen: nat, i: nat)
    requires |chain| == |x| && Chained(chain) && 0 < cur < |x| && Sized(lit, |x|) && lit.cost[cur] <= lit.cost[cur + 1] + LITERAL_COST
    requires Searched(x, chain, lit, cur, chain[cur], maxDepth, acceptLen, r) && SameBehind(r.0, f, |x|, r.1 - 1)
    requires r.1 <= i <= cur
    ensures Considered(x, chain, f, i, maxDepth, acceptLen)
  {
    hide Weighed;
    if i < cur {
      assert Carried(r.0, i);
    } else {
      if r.1 < cur {
        assert Carried(r.0, cur - 1);
        assert Carried(f, cur - 1);
      }
      WeighedSame(x, chain, r.0, f, cur, chain[cur], maxDepth, acceptLen, r.1 < cur, cur > 1 && Carried(f, cur - 1));
    }
  }

  // ---- What that means ----

  /** The nearest earlier position with the same hash has always been weighed, at every length. */
  lemma NearestWeighed(x: seq<Byte>, chain: seq<nat>, d: Table, i: nat, maxDepth: nat, acceptLen: nat)
    requires |chain| == |x| && Chained(chain) && 1 <= i < |x| && Considered(x, chain, d, i, maxDepth, acceptLen) && maxDepth >= 1
    ensures Carried(d, i) || chain[i] == NO_MATCH || Beats(x, d, i, chain[i])
  {
  }

  /** A match that goes to the end of the input is no dearer than one that starts further back. */
  lemma BeatsFurther(x: seq<Byte>, d: Table, i: nat, p: nat, q: nat)
    requires Beats(x, d, i, p) && i < |x| && Agree(x, p, i, |x| - i) && q <= p
    ensures Beats(x, d, i, q)
  {
    hide MatchCost;
    forall k | 4 <= k && Agree(x, q, i, k) ensures NoDearer(d, i, q, k) {
      AgreeFewer(x, p, i, |x| - i, k);
      assert NoDearer(d, i, p, k);
      MatchCostMonotone(i - p - 1, i - q - 1, k);
    }
  }

  /** Along the chain every position with the hash of i comes up. */
  lemma {:induction false} ChainReaches(x: seq<Byte>, bits: nat, chain: seq<nat>, d: Table, i: nat, p: nat, left: nat, acceptLen: nat, q: nat)
    requires |chain| == |x| < NO_MATCH && Chained(chain) && bits <= 32 && LastMatchPos(|x|) > 0 && HashChain(x, bits, chain, LastMatchPos(|x|) + 1)
    requires i <= LastMatchPos(|x|) && q <= p < i && Hash4Bits(x, q, bits) == Hash4Bits(x, i, bits) == Hash4Bits(x, p, bits)
    requires Weighed(x, chain, d, i, p, left, acceptLen, false) && left > p && acceptLen > |x|
    ensures Beats(x, d, i, q)
    decreases p
  {
    hide Hash4Bits, Beats, HashChain;
    if q < p {
      if Enough(x, i, p, acceptLen) {
        BeatsFurther(x, d, i, p, q);
      } else {
        LinkOf(x, bits, chain, p, q);
        ChainReaches(x, bits, chain, d, i, chain[p], left - 1, acceptLen, q);
      }
    }
  }

  /** The link of p passes over no position with its hash. */
  lemma LinkOf(x: seq<Byte>, bits: nat, chain: seq<nat>, p: nat, q: nat)
    requires |chain| == |x| < NO_MATCH && bits <= 32 && LastMatchPos(|x|) > 0 && HashChain(x, bits, chain, LastMatchPos(|x|) + 1)
    requires q < p <= LastMatchPos(|x|) && Hash4Bits(x, q, bits) == Hash4Bits(x, p, bits)
    ensures q <= chain[p] < p && Hash4Bits(x, chain[p], bits) == Hash4Bits(x, p, bits)
  {
    hide Hash4Bits;
    assert LastWithHash(x, bits, p, p, chain[p]);
  }

  /** With nothing to limit it, a search from which no match was carried has weighed every earlier position with the hash. */
  lemma AllWeighed(x: seq<Byte>, bits: nat, chain: seq<nat>, d: Table, i: nat, maxDepth: nat, acceptLen: nat, q: nat)
    requires |chain| == |x| < NO_MATCH && Chained(chain) && bits <= 32 && LastMatchPos(|x|) > 0 && HashChain(x, bits, chain, LastMatchPos(|x|) + 1)
    requires 1 <= i <= LastMatchPos(|x|) && Considered(x, chain, d, i, maxDepth, acceptLen) && maxDepth > |x| && acceptLen > |x|
    requires !Carried(d, i) && !(i > 1 && Carried(d, i - 1)) && q < i && Hash4Bits(x, q, bits) == Hash4Bits(x, i, bits)
    ensures Beats(x, d, i, q)
  {
    hide Hash4Bits, HashChain, Weighed, Carried;
    LinkOf(x, bits, chain, i, q);
    ChainReaches(x, bits, chain, d, i, chain[i], maxDepth, acceptLen, q);
  }

  /** The table that levels 5 to 7 follow. */
  ghost function LeparseTable(x: seq<Byte>, maxDepth: nat, acceptLen: nat): (d: Table)
    requires 4 <= |x| < NO_MATCH
    ensures Settled(x, d, 1)
  {
    SweptSettled(x, maxDepth, acceptLen);
    Sweep(x, ChainOf(x, HashBits(|x|)), Blank(|x|), LastMatchPos(|x|), maxDepth, acceptLen)
  }

  /** The tokens are the path of that table, which costs what it says and has considered everything at every position. */
  lemma LeparseChooses(x: seq<Byte>, maxDepth: nat, acceptLen: nat)
    requires 4 <= |x| < NO_MATCH
    ensures HashBits(|x|) <= 32 && Leparse(x, maxDepth, acceptLen) == Path(x, LeparseTable(x, maxDepth, acceptLen), 1)
    ensures Parses(x, 1, Leparse(x, maxDepth, acceptLen))
    ensures Exact(|x|) ==> ParseCost(x, 1, Leparse(x, maxDepth, acceptLen)) == LeparseTable(x, maxDepth, acceptLen).cost[1]
    ensures forall i :: 1 <= i <= LastMatchPos(|x|) ==>
              Considered(x, ChainOf(x, HashBits(|x|)), LeparseTable(x, maxDepth, acceptLen), i, maxDepth, acceptLen)
  {
    hide Sweep, ChainOf, Settled, Path, Considered, HashBits, Parses, ParseCost;
    HashBitsFit(|x|);
    SweptSettled(x, maxDepth, acceptLen);
    SweepConsiders(x, ChainOf(x, HashBits(|x|)), Blank(|x|), LastMatchPos(|x|), maxDepth, acceptLen);
    PathParses(x, LeparseTable(x, maxDepth, acceptLen), 1);
  }

  /** The chains are those of the hash. */
  lemma ChainOfLinks(x: seq<Byte>, bits: nat)
    requires 4 < |x| < NO_MATCH && bits <= 32
    ensures HashChain(x, bits, ChainOf(x, bits), LastMatchPos(|x|) + 1)
  {
    hide Hash4Bits, LastWithHash;
    forall i | 0 <= i <= LastMatchPos(|x|) ensures LastWithHash(x, bits, i, i, ChainOf(x, bits)[i]) {
      LastBeforeIs(x, bits, i, i);
    }
  }

  lemma {:induction false} LastBeforeIs(x: seq<Byte>, bits: nat, at: nat, i: nat)
    requires at + 4 <= |x| < NO_MATCH && i <= at && bits <= 32
    ensures LastWithHash(x, bits, at, i, LastBefore(x, bits, at, i))
  {
    hide Hash4Bits;
    if i > 0 {
      LastBeforeIs(x, bits, at, i - 1);
    }
  }

  /** At any depth: what is not carried is no dearer than a literal and every length of the nearest match of its hash. */
  lemma LeparseWeighsNearest(x: seq<Byte>, maxDepth: nat, acceptLen: nat, i: nat, p: nat)
    requires 4 < |x| < NO_MATCH && maxDepth >= 1 && 1 <= i <= LastMatchPos(|x|) && HashBits(|x|) <= 32
    requires p < i && LastWithHash(x, HashBits(|x|), i, i, p)
    ensures var d := LeparseTable(x, maxDepth, acceptLen); Carried(d, i) || (d.cost[i] <= d.cost[i + 1] + LITERAL_COST && Beats(x, d, i, p))
  {
    hide Hash4Bits, LastWithHash, LeparseTable, ChainOf, Beats, Carried, HashBits;
    LeparseChooses(x, maxDepth, acceptLen);
    LastIsBefore(x, HashBits(|x|), i, i, p);
    ChainAt(x, HashBits(|x|), i);
    NearestWeighed(x, ChainOf(x, HashBits(|x|)), LeparseTable(x, maxDepth, acceptLen), i, maxDepth, acceptLen);
  }

  lemma ChainAt(x: seq<Byte>, bits: nat, i: nat)
    requires |x| >= 4 && bits <= 32 && 1 <= i <= LastMatchPos(|x|)
    ensures i + 4 <= |x| && ChainOf(x, bits)[i] == LastBefore(x, bits, i, i)
  {
  }

  /** Unlimited: where nothing is carried, it is no dearer than any length of any match of its hash. */
  lemma LeparseWeighsAll(x: seq<Byte>, maxDepth: nat, acceptLen: nat, i: nat, q: nat)
    requires 4 < |x| < NO_MATCH && maxDepth > |x| && acceptLen > |x| && q < i && 1 <= i <= LastMatchPos(|x|) && HashBits(|x|) <= 32
    requires Hash4Bits(x, q, HashBits(|x|)) == Hash4Bits(x, i, HashBits(|x|))
    ensures var d := LeparseTable(x, maxDepth, acceptLen); Carried(d, i) || (i > 1 && Carried(d, i - 1)) || Beats(x, d, i, q)
  {
    hide Hash4Bits, LeparseTable, ChainOf, Beats, Carried, HashBits, HashChain, Considered;
    LeparseChooses(x, maxDepth, acceptLen);
    ChainOfLinks(x, HashBits(|x|));
    var d := LeparseTable(x, maxDepth, acceptLen);
    if !Carried(d, i) && !(i > 1 && Carried(d, i - 1)) {
      AllWeighed(x, HashBits(|x|), ChainOf(x, HashBits(|x|)), d, i, maxDepth, acceptLen, q);
    }
  }
}
