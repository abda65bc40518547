/**
 * The forwards parse behind levels 8 to 10, on its tables: the cheapest way to arrive at every position,
 * and why a table in which every token has been tried gives a cheapest parse.
 */
module BlzForward {
  import opened Permutations
  import opened BlzTokens
  import opened BlzPack
  import opened BlzChoice
  import opened BlzCost
  import opened BlzLeparse

  const INFINITE: nat := 0xFFFF_FFFF
  const FIRST_COST := 8

  // ---- Arriving ----

  /** The token that arrives at j; mpos holds the offset of a match. */
  function Arrival(d: Table, j: nat): Token
    requires j < |d.mlen| && j < |d.mpos|
  {
    if d.mlen[j] == 1 || j < d.mlen[j] + d.mpos[j] + 1 then Literal else Match(j - d.mlen[j] - d.mpos[j] - 1, d.mlen[j])
  }

  /** The entry of j is a literal or a true match that ends there, from position 1 or later. */
  ghost predicate Arrives(x: seq<Byte>, d: Table, j: nat) {
    && Sized(d, |x|) && 2 <= j <= |x|
    && (d.mlen[j] == 1 || (4 <= d.mlen[j] < j && d.mpos[j] < j - d.mlen[j]
                            && TrueMatch(x, j - d.mlen[j], j - d.mlen[j] - d.mpos[j] - 1, d.mlen[j])))
  }

  ghost predicate AllArrive(x: seq<Byte>, d: Table) {
    Sized(d, |x|) && forall j :: 2 <= j <= |x| ==> Arrives(x, d, j)
  }

  /** The cost of j is that of where its token starts, from among the first c positions, and of the token. */
  ghost predicate Priced(x: seq<Byte>, d: Table, j: nat, c: nat) {
    && Arrives(x, d, j)
    && (d.cost[j] == INFINITE
        || (d.mlen[j] < j && j - d.mlen[j] < c
            && d.cost[j] == d.cost[j - d.mlen[j]] + if d.mlen[j] == 1 then LITERAL_COST else MatchCost(d.mpos[j], d.mlen[j])))
  }

  ghost predicate AllPriced(x: seq<Byte>, d: Table, c: nat) {
    Sized(d, |x|) && |x| >= 1 && d.cost[1] == FIRST_COST && forall j :: 2 <= j <= |x| ==> Priced(x, d, j, c)
  }

  /** No position up to c costs more than literals would. */
  ghost predicate Cheap(d: Table, c: nat) {
    c < |d.cost| && forall j :: 1 <= j <= c ==> d.cost[j] <= FIRST_COST + LITERAL_COST * (j - 1)
  }

  /** Entering a cheaper way from cur to j. */
  lemma EnterArrives(x: seq<Byte>, d: Table, j: nat, cost: nat, offs: nat, len: nat)
    requires AllArrive(x, d) && 2 <= j <= |x|
    requires len == 1 || (4 <= len < j && offs < j - len && TrueMatch(x, j - len, j - len - offs - 1, len))
    ensures AllArrive(x, Entered(d, j, cost, offs, len))
  {
    var r := Entered(d, j, cost, offs, len);
    forall k | 2 <= k <= |x| ensures Arrives(x, r, k) {
      assert Arrives(x, d, k);
    }
  }

  lemma EnterPriced(x: seq<Byte>, d: Table, cur: nat, j: nat, cost: nat, offs: nat, len: nat)
    requires AllPriced(x, d, cur + 1) && 1 <= cur < j <= |x| && j == cur + len
    requires AllArrive(x, Entered(d, j, cost, offs, len))
    requires cost == d.cost[cur] + if len == 1 then LITERAL_COST else if len >= 4 then MatchCost(offs, len) else 0
    requires len == 1 || len >= 4
    ensures AllPriced(x, Entered(d, j, cost, offs, len), cur + 1)
  {
    var r := Entered(d, j, cost, offs, len);
    var c := cur + 1;
    forall k | 2 <= k <= |x| ensures Priced(x, r, k, c) {
      assert Priced(x, d, k, c) && Arrives(x, r, k);
    }
  }

  lemma PricedMore(x: seq<Byte>, d: Table, c: nat)
    requires AllPriced(x, d, c)
    ensures AllPriced(x, d, c + 1)
  {
    var next := c + 1;
    forall k | 2 <= k <= |x| ensures Priced(x, d, k, next) {
      assert Priced(x, d, k, c);
    }
  }

  // ---- Trying every token ----

  /** No match of the accepted length that starts before i goes on past it. */
  ghost predicate Quiet(x: seq<Byte>, i: nat, acceptLen: nat) {
    forall c: nat, p: nat, n: nat :: p < c < i && n >= acceptLen && Agree(x, p, c, n) ==> c + n <= i
  }

  /** Matches that are tried: without limits all of them, else at quiet positions those with the last position of the same hash. */
  ghost predicate Offered(x: seq<Byte>, i: nat, q: nat, maxDepth: nat, acceptLen: nat) {
    (maxDepth >= |x| && acceptLen >= |x|) || (maxDepth >= 1 && Quiet(x, i, acceptLen) && LastAlike(x, i, q))
  }

  /** Neither a literal nor a match offered at i leads anywhere for less than the table has it. */
  ghost predicate Relaxed(x: seq<Byte>, d: Table, i: nat, maxDepth: nat, acceptLen: nat) {
    && Sized(d, |x|) && i < |x| && d.cost[i + 1] <= d.cost[i] + LITERAL_COST
    && forall q, len :: TrueMatch(x, i, q, len) && Offered(x, i, q, maxDepth, acceptLen) ==>
         d.cost[i + len] <= d.cost[i] + MatchCost(i - q - 1, len)
  }

  ghost predicate AllRelaxed(x: seq<Byte>, d: Table, c: nat, maxDepth: nat, acceptLen: nat) {
    forall i :: 1 <= i < c ==> Relaxed(x, d, i, maxDepth, acceptLen)
  }

  /** Costs only fall, and only after cur. */
  ghost predicate Falls(d: Table, e: Table, cur: nat) {
    && |e.cost| == |d.cost| && |e.mpos| == |d.mpos| && |e.mlen| == |d.mlen|
    && (forall j :: 0 <= j < |d.cost| ==> e.cost[j] <= d.cost[j])
    && forall j :: 0 <= j <= cur && j < |d.cost| ==> e.cost[j] == d.cost[j]
  }

  lemma FallsTwice(d: Table, e: Table, f: Table, cur: nat)
    requires Falls(d, e, cur) && Falls(e, f, cur)
    ensures Falls(d, f, cur)
  {
  }

  lemma StaysRelaxed(x: seq<Byte>, d: Table, e: Table, c: nat, maxDepth: nat, acceptLen: nat)
    requires AllRelaxed(x, d, c, maxDepth, acceptLen) && Falls(d, e, c) && Sized(d, |x|) && c < |x|
    ensures AllRelaxed(x, e, c, maxDepth, acceptLen)
  {
    hide Offered;
    forall i | 1 <= i < c ensures Relaxed(x, e, i, maxDepth, acceptLen) {
      assert Relaxed(x, d, i, maxDepth, acceptLen);
      forall q, len | TrueMatch(x, i, q, len) && Offered(x, i, q, maxDepth, acceptLen) ensures e.cost[i + len] <= e.cost[i] + MatchCost(i - q - 1, len) {
        assert d.cost[i + len] <= d.cost[i] + MatchCost(i - q - 1, len);
      }
    }
  }

  lemma {:induction false} MatchCostMonotone(a: nat, b: nat, len: nat)
    requires a <= b && len >= 4
    ensures MatchCost(a, len) <= MatchCost(b, len)
  {
    LogMonotone(a / 256 + 2, b / 256 + 2);
  }

  // ---- The cheapest parse ----

  /** Tokens from 1 to j, each the one that arrives. */
  ghost function BackTokens(x: seq<Byte>, d: Table, j: nat): seq<Token>
    requires AllArrive(x, d) && 1 <= j <= |x|
    decreases j
  {
    if j == 1 then []
    else
      assert Arrives(x, d, j);
      BackTokens(x, d, j - d.mlen[j]) + [Arrival(d, j)]
  }

  /** The cost of tokens reached from the back. */
  ghost function ReachCost(x: seq<Byte>, from: nat, ts: seq<Token>, to: nat): nat
    requires Reaches(x, from, ts, to)
    decreases |ts|
  {
    if ts == [] then 0
    else
      var t := ts[|ts| - 1];
      ReachCost(x, from, ts[..|ts| - 1], to - Length(t)) + TokenCost(to - Length(t), t)
  }

  lemma ArriveSized(x: seq<Byte>, d: Table)
    requires AllArrive(x, d)
    ensures Sized(d, |x|)
  {
  }

  lemma BackStarts(x: seq<Byte>, d: Table)
    requires AllArrive(x, d) && 1 <= |x|
    ensures BackTokens(x, d, 1) == [] && Reaches(x, 1, [], 1)
  {
  }

  /** One token more on the way back from j. */
  lemma BackOneMore(x: seq<Byte>, d: Table, j: nat, i: nat)
    requires AllArrive(x, d) && Sized(d, |x|) && 1 < j <= |x| && 1 <= d.mlen[j] < j && i == j - d.mlen[j] == j - Length(Arrival(d, j))
    requires Reaches(x, 1, BackTokens(x, d, i), i) && Fits(x, i, Arrival(d, j))
    ensures Reaches(x, 1, BackTokens(x, d, j), j)
  {
    hide Reaches, BackTokens, Fits, TokenEvents, AllArrive, Arrival;
    BackTokensLast(x, d, j);
    ReachesAppend(x, 1, BackTokens(x, d, i), i, Arrival(d, j));
  }

  lemma {:induction false} BackReaches(x: seq<Byte>, d: Table, j: nat)
    requires AllArrive(x, d) && 1 <= j <= |x|
    ensures Reaches(x, 1, BackTokens(x, d, j), j)
    decreases j
  {
    hide Reaches, BackTokens, Fits, AllArrive, Arrival;
    ArriveSized(x, d);
    if j == 1 {
      BackStarts(x, d);
    } else {
      var i := ArrivalFits(x, d, j);
      BackReaches(x, d, i);
      BackOneMore(x, d, j, i);
    }
  }

  lemma ArrivalFits(x: seq<Byte>, d: Table, j: nat) returns (i: nat)
    requires AllArrive(x, d) && 1 < j <= |x|
    ensures 1 <= d.mlen[j] < j && i == j - d.mlen[j] == j - Length(Arrival(d, j))
    ensures Arrival(d, j).Match? ==> Arrival(d, j).len >= 4 && Arrival(d, j).pos < i
    ensures Fits(x, i, Arrival(d, j))
  {
    assert Arrives(x, d, j);
    i := j - d.mlen[j];
  }

  lemma {:induction false} BackCosts(x: seq<Byte>, d: Table, j: nat, c: nat)
    requires AllArrive(x, d) && AllPriced(x, d, c) && 1 <= j <= |x| && j <= c && Cheap(d, c) && c <= |x|
    requires LITERAL_COST * |x| < INFINITE
    ensures Reaches(x, 1, BackTokens(x, d, j), j)
    ensures d.cost[j] == FIRST_COST + ReachCost(x, 1, BackTokens(x, d, j), j)
    decreases j
  {
    BackReaches(x, d, j);
    if j > 1 {
      hide Reaches, ReachCost, TokenCost, MatchCost, BackTokens;
      var i := ArrivalCosts(x, d, j, c);
      BackCosts(x, d, i, c);
      BackTokensLast(x, d, j);
      ReachCostLast(x, 1, BackTokens(x, d, i), Arrival(d, j), j);
    }
  }

  /** The entry of j comes from an earlier position, at the cost of its token. */
  lemma ArrivalCosts(x: seq<Byte>, d: Table, j: nat, c: nat) returns (i: nat)
    requires AllArrive(x, d) && AllPriced(x, d, c) && 1 < j <= |x| && j <= c && Cheap(d, c) && c <= |x|
    requires LITERAL_COST * |x| < INFINITE
    ensures 1 <= i < j && i == j - d.mlen[j] == j - Length(Arrival(d, j))
    ensures Arrival(d, j).Match? ==> Arrival(d, j).len >= 4 && Arrival(d, j).pos < i
    ensures d.cost[j] == d.cost[i] + TokenCost(i, Arrival(d, j))
  {
    hide MatchCost;
    assert Priced(x, d, j, c) && Arrives(x, d, j);
    i := j - d.mlen[j];
  }

  lemma BackTokensLast(x: seq<Byte>, d: Table, j: nat)
    requires AllArrive(x, d) && 1 < j <= |x| && 1 <= d.mlen[j] < j
    ensures BackTokens(x, d, j) == BackTokens(x, d, j - d.mlen[j]) + [Arrival(d, j)]
  {
    assert Arrives(x, d, j);
  }

  lemma ReachCostLast(x: seq<Byte>, from: nat, ts: seq<Token>, t: Token, to: nat)
    requires Length(t) <= to && Reaches(x, from, ts, to - Length(t)) && Reaches(x, from, ts + [t], to)
    ensures ReachCost(x, from, ts + [t], to) == ReachCost(x, from, ts, to - Length(t)) + TokenCost(to - Length(t), t)
  {
    hide TokenCost;
    var all := ts + [t];
    assert all[..|all| - 1] == ts;
  }

  lemma NothingCosts(x: seq<Byte>, from: nat, a: seq<Token>, to: nat)
    requires Reaches(x, from, a, to) && a == []
    ensures ReachCost(x, from, a, to) == 0
  {
  }

  lemma CostSteps(x: seq<Byte>, from: nat, a: seq<Token>, to: nat, b: seq<Token>)
    requires Reaches(x, from, a, to) && Parses(x, to, b) && a != []
    ensures var t, front := a[|a| - 1], a[..|a| - 1];
            && from + Length(t) <= to && (t.Match? ==> t.len >= 4 && t.pos < to - Length(t))
            && Reaches(x, from, front, to - Length(t)) && Parses(x, to - Length(t), [t] + b)
            && ReachCost(x, from, a, to) == ReachCost(x, from, front, to - Length(t)) + TokenCost(to - Length(t), t)
            && ParseCost(x, to - Length(t), [t] + b) == TokenCost(to - Length(t), t) + ParseCost(x, to, b)
  {
    var t := a[|a| - 1];
    assert ([t] + b)[1..] == b;
  }

  lemma {:induction false} ReachThenParse(x: seq<Byte>, from: nat, a: seq<Token>, to: nat, b: seq<Token>)
    requires Reaches(x, from, a, to) && Parses(x, to, b)
    ensures Parses(x, from, a + b) && ParseCost(x, from, a + b) == ReachCost(x, from, a, to) + ParseCost(x, to, b)
    decreases |a|
  {
    hide TokenCost, Fits, Reaches, Parses, ReachCost, ParseCost, EventsTo, Events, TokenEvents;
    NothingReached(x, from, a, to);
    if a == [] {
      NothingCosts(x, from, a, to);
      assert a + b == b;
    } else {
      var t, front := a[|a| - 1], a[..|a| - 1];
      ReachesLast(x, from, a, to);
      ParsesFirst(x, to - Length(t), t, b);
      CostSteps(x, from, a, to, b);
      ReachThenParse(x, from, front, to - Length(t), [t] + b);
      assert front + ([t] + b) == a + b;
    }
  }

  /** Every match among the tokens from i on is one that is tried. */
  ghost predicate AllOffered(x: seq<Byte>, i: nat, ts: seq<Token>, maxDepth: nat, acceptLen: nat)
    decreases |ts|
  {
    ts == [] || ((ts[0].Match? ==> Offered(x, i, ts[0].pos, maxDepth, acceptLen)) && AllOffered(x, i + Length(ts[0]), ts[1..], maxDepth, acceptLen))
  }

  /** Without limits that says nothing. */
  lemma {:induction false} NoLimits(x: seq<Byte>, i: nat, ts: seq<Token>, maxDepth: nat, acceptLen: nat)
    requires maxDepth >= |x| && acceptLen >= |x|
    ensures AllOffered(x, i, ts, maxDepth, acceptLen)
    decreases |ts|
  {
    if ts != [] {
      NoLimits(x, i + Length(ts[0]), ts[1..], maxDepth, acceptLen);
    }
  }

  /** No parse from i on whose matches are tried is cheaper than what the table makes of the way from i to the end. */
  lemma {:induction false} NoCheaperParse(x: seq<Byte>, d: Table, i: nat, ts: seq<Token>, maxDepth: nat, acceptLen: nat)
    requires AllRelaxed(x, d, |x|, maxDepth, acceptLen) && Sized(d, |x|) && 1 <= i <= |x|
    requires Parses(x, i, ts) && AllOffered(x, i, ts, maxDepth, acceptLen)
    ensures d.cost[|x|] <= d.cost[i] + ParseCost(x, i, ts)
    decreases |ts|
  {
    hide Offered;
    if ts != [] {
      assert Relaxed(x, d, i, maxDepth, acceptLen);
      NoCheaperParse(x, d, i + Length(ts[0]), ts[1..], maxDepth, acceptLen);
    }
  }

  /** Once every token has been tried, the tokens that arrive at the end are a cheapest parse. */
  lemma BackIsCheapest(x: seq<Byte>, d: Table, other: seq<Token>, maxDepth: nat, acceptLen: nat)
    requires |x| >= 1 && AllArrive(x, d) && AllPriced(x, d, |x|) && Cheap(d, |x|) && AllRelaxed(x, d, |x|, maxDepth, acceptLen)
    requires LITERAL_COST * |x| < INFINITE && Parses(x, 1, other) && AllOffered(x, 1, other, maxDepth, acceptLen)
    ensures Parses(x, 1, BackTokens(x, d, |x|))
    ensures ParseCost(x, 1, BackTokens(x, d, |x|)) <= ParseCost(x, 1, other)
  {
    hide AllRelaxed, AllOffered;
    var ts := BackTokens(x, d, |x|);
    BackCosts(x, d, |x|, |x|);
    ReachThenParse(x, 1, ts, |x|, []);
    assert ts + [] == ts;
    NoCheaperParse(x, d, 1, other, maxDepth, acceptLen);
  }
}
