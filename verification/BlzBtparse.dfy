/**
 * Levels 8 to 10: a forwards parse that finds matches in trees re-rooted at every position. At level 10
 * no parse the format allows is cheaper.
 */
module BlzBtparse {
  import opened Permutations
  import opened BlzTokens
  import opened BlzPack
  import opened BlzChoice
  import opened BlzCost
  import opened BlzLeparse
  import opened BlzTree
  import opened BlzTreeArray
  import opened BlzForward

  /** The tables' arrays, seen as a table. */
  ghost function View(cost: array<nat>, mpos: array<nat>, mlen: array<nat>): Table
    reads cost, mpos, mlen
  {
    Table(cost[..], mpos[..], mlen[..])
  }

  ghost predicate Distinct(cost: array<nat>, mpos: array<nat>, mlen: array<nat>) {
    cost != mpos && cost != mlen && mpos != mlen
  }

  method EnterCell(cost: array<nat>, mpos: array<nat>, mlen: array<nat>, j: nat, c: nat, offs: nat, len: nat)
    requires Distinct(cost, mpos, mlen) && j < cost.Length && j < mpos.Length && j < mlen.Length
    modifies cost, mpos, mlen
    ensures View(cost, mpos, mlen) == Entered(old(View(cost, mpos, mlen)), j, c, offs, len)
  {
    cost[j] := c;
    mpos[j] := offs;
    mlen[j] := len;
  }

  /** Everything kept about the table while position cur is being worked on. */
  ghost predicate Kept(x: seq<Byte>, d: Table, cur: nat, exact: bool) {
    && AllArrive(x, d) && 1 <= cur < |x|
    && (exact ==> AllPriced(x, d, cur + 1) && Cheap(d, cur + 1))
  }

  lemma KeptSize(x: seq<Byte>, d: Table, cur: nat, exact: bool)
    requires Kept(x, d, cur, exact)
    ensures Sized(d, |x|) && 1 <= cur < |x| && AllArrive(x, d)
  {
  }

  lemma KeptEntered(x: seq<Byte>, d: Table, cur: nat, exact: bool, cost: nat, offs: nat, len: nat)
    requires Kept(x, d, cur, exact) && len >= 4 && offs < cur && TrueMatch(x, cur, cur - offs - 1, len)
    requires Sized(d, |x|) && cost == d.cost[cur] + MatchCost(offs, len) && cost < d.cost[cur + len]
    ensures Kept(x, Entered(d, cur + len, cost, offs, len), cur, exact)
    ensures Falls(d, Entered(d, cur + len, cost, offs, len), cur)
  {
    EnterArrives(x, d, cur + len, cost, offs, len);
    if exact {
      EnterPriced(x, d, cur, cur + len, cost, offs, len);
    }
  }

  /** The length k of the match with pos has been tried. */
  ghost predicate Tried(d: Table, cur: nat, pos: nat, k: nat) {
    pos < cur && k >= 4 && cur + k < |d.cost| && d.cost[cur + k] <= d.cost[cur] + MatchCost(cur - pos - 1, k)
  }

  lemma TriedStays(d: Table, e: Table, cur: nat, pos: nat, from: nat, to: nat)
    requires Falls(d, e, cur) && forall k: nat :: from <= k < to ==> Tried(d, cur, pos, k)
    ensures forall k: nat :: from <= k < to ==> Tried(e, cur, pos, k)
  {
    hide MatchCost;
    forall k: nat | from <= k < to ensures Tried(e, cur, pos, k) {
      assert Tried(d, cur, pos, k);
    }
  }

  /** Tries the lengths from `from` to len of a match. */
  method TryLengths(cost: array<nat>, mpos: array<nat>, mlen: array<nat>, x: seq<Byte>, cur: nat, pos: nat, from: nat, len: nat,
                    ghost exact: bool)
    requires Distinct(cost, mpos, mlen) && Kept(x, View(cost, mpos, mlen), cur, exact)
    requires pos < cur && 4 <= from <= len + 1 && Agree(x, pos, cur, len)
    modifies cost, mpos, mlen
    ensures Kept(x, View(cost, mpos, mlen), cur, exact) && Falls(old(View(cost, mpos, mlen)), View(cost, mpos, mlen), cur)
    ensures Sized(View(cost, mpos, mlen), |x|)
    ensures forall k: nat :: from <= k < len + 1 ==> Tried(View(cost, mpos, mlen), cur, pos, k)
  {
    ghost var d0 := View(cost, mpos, mlen);
    KeptSize(x, d0, cur, exact);
    hide Kept, MatchCost, Agree, AllArrive;
    var i := from;
    while i <= len
      invariant from <= i <= len + 1 && Kept(x, View(cost, mpos, mlen), cur, exact) && Sized(View(cost, mpos, mlen), |x|)
      invariant Falls(d0, View(cost, mpos, mlen), cur)
      invariant forall k: nat :: from <= k < i ==> Tried(View(cost, mpos, mlen), cur, pos, k)
    {
      ghost var d := View(cost, mpos, mlen);
      AgreeInside(x, pos, cur, len, i);
      var there := cost[cur] + MatchCost(cur - pos - 1, i);
      if there < cost[cur + i] {
        KeptEntered(x, d, cur, exact, there, cur - pos - 1, i);
        EnterCell(cost, mpos, mlen, cur + i, there, cur - pos - 1, i);
        FallsTwice(d0, d, View(cost, mpos, mlen), cur);
        TriedStays(d, View(cost, mpos, mlen), cur, pos, from, i);
      }
      i := i + 1;
    }
  }

  lemma AgreeInside(x: seq<Byte>, pos: nat, cur: nat, len: nat, i: nat)
    requires Agree(x, pos, cur, len) && pos < cur && 4 <= i <= len
    ensures cur + len <= |x| && TrueMatch(x, cur, pos, i)
  {
    AgreeFewer(x, pos, cur, len, i);
  }

  /** Tries a literal at cur. */
  method TryLiteral(cost: array<nat>, mpos: array<nat>, mlen: array<nat>, x: seq<Byte>, cur: nat, ghost exact: bool)
    requires Distinct(cost, mpos, mlen) && AllArrive(x, View(cost, mpos, mlen)) && 1 <= cur < |x|
    requires exact ==> AllPriced(x, View(cost, mpos, mlen), cur) && Cheap(View(cost, mpos, mlen), cur)
    modifies cost, mlen
    ensures Kept(x, View(cost, mpos, mlen), cur, exact) && Falls(old(View(cost, mpos, mlen)), View(cost, mpos, mlen), cur)
    ensures Sized(View(cost, mpos, mlen), |x|) && cost[cur + 1] <= cost[cur] + LITERAL_COST
  {
    ghost var d := View(cost, mpos, mlen);
    hide AllArrive, AllPriced;
    ArriveSize(x, d);
    if exact {
      PricedMore(x, d, cur);
    }
    if cost[cur + 1] > cost[cur] + LITERAL_COST {
      EnterArrives(x, d, cur + 1, d.cost[cur] + LITERAL_COST, d.mpos[cur + 1], 1);
      if exact {
        EnterPriced(x, d, cur, cur + 1, d.cost[cur] + LITERAL_COST, d.mpos[cur + 1], 1);
      }
      cost[cur + 1] := cost[cur] + LITERAL_COST;
      mlen[cur + 1] := 1;
      assert View(cost, mpos, mlen) == Entered(d, cur + 1, d.cost[cur] + LITERAL_COST, d.mpos[cur + 1], 1);
    }
  }

  lemma ArriveSize(x: seq<Byte>, d: Table)
    requires AllArrive(x, d)
    ensures Sized(d, |x|)
  {
  }

  // ---- What the way down has seen ----

  /** Everything left lies between two strings that agree with cur so far. */
  ghost predicate Bounded(x: seq<Byte>, m: nat, t: Tree, cur: nat, lo: nat, ltLen: nat, hi: nat, gtLen: nat) {
    && ltLen <= m && gtLen <= m && cur + m <= |x|
    && (ltLen == 0 || (lo + m <= |x| && Same(x, lo, cur, ltLen) && RightOf(x, m, t, lo)))
    && (gtLen == 0 || (hi + m <= |x| && Same(x, hi, cur, gtLen) && LeftOf(x, m, t, hi)))
  }

  /** So the string at the root agrees with cur at least as far as both do. */
  lemma KnownLength(x: seq<Byte>, m: nat, t: Tree, cur: nat, lo: nat, ltLen: nat, hi: nat, gtLen: nat)
    requires Bounded(x, m, t, cur, lo, ltLen, hi, gtLen) && t.Node? && t.pos < cur
    ensures Agree(x, t.pos, cur, if ltLen < gtLen then ltLen else gtLen) && (if ltLen < gtLen then ltLen else gtLen) <= m
  {
    var k := if ltLen < gtLen then ltLen else gtLen;
    assert t.pos in Positions(t);
    if k > 0 {
      SamePrefix(x, lo, cur, ltLen, k);
      SamePrefix(x, hi, cur, gtLen, k);
      Between(x, lo, t.pos, hi, cur, k, m);
    }
  }

  lemma BoundedDown(x: seq<Byte>, m: nat, t: Tree, cur: nat, lo: nat, ltLen: nat, hi: nat, gtLen: nat, k: nat)
    requires Bounded(x, m, t, cur, lo, ltLen, hi, gtLen) && t.Node? && Ordered(x, m, t) && Same(x, t.pos, cur, k) && k <= m
    ensures Bounded(x, m, t.gt, cur, t.pos, k, hi, gtLen)
    ensures Bounded(x, m, t.lt, cur, lo, ltLen, t.pos, k)
  {
    assert Positions(t.gt) <= Positions(t) && Positions(t.lt) <= Positions(t);
    if gtLen > 0 { PartOf(x, m, t, t.gt, hi); }
    if ltLen > 0 { PartOf(x, m, t, t.lt, lo); }
  }

  /** Of the tree's matches, those up to maxLen have been tried, or nearer ones; the longer ones are still in t. */
  ghost predicate Sought(x: seq<Byte>, d: Table, cur: nat, t0: Tree, t: Tree, maxLen: nat) {
    && Sized(d, |x|) && cur < |x|
    && forall p, n :: p in Positions(t0) && n >= 4 && Same(x, p, cur, n) ==>
         p < cur && if n <= maxLen then d.cost[cur + n] <= d.cost[cur] + MatchCost(cur - p - 1, n) else p in Positions(t)
  }

  lemma SoughtStart(x: seq<Byte>, d: Table, cur: nat, t: Tree)
    requires Sized(d, |x|) && cur < |x| && Below(t, cur)
    ensures Sought(x, d, cur, t, t, 3)
  {
    forall p | p in Positions(t) ensures p < cur {
      BelowAt(t, cur, p);
    }
  }

  /** The root is the nearest of what is left, so trying it settles all lengths it has. */
  lemma SoughtHere(x: seq<Byte>, d: Table, e: Table, cur: nat, t0: Tree, t: Tree, m: nat, maxLen: nat, len: nat)
    requires Sought(x, d, cur, t0, t, maxLen) && t.Node? && Ordered(x, m, t) && Falls(d, e, cur) && 3 <= maxLen < len
    requires t.pos < cur && cur + len <= |x|
    requires forall k: nat :: maxLen + 1 <= k < len + 1 ==> Tried(e, cur, t.pos, k)
    ensures Sought(x, e, cur, t0, t, len)
  {
    hide MatchCost, Falls, Same, Ordered;
    FallsSize(d, e, cur);
    forall p, n | p in Positions(t0) && n >= 4 && Same(x, p, cur, n)
      ensures p < cur && if n <= len then e.cost[cur + n] <= e.cost[cur] + MatchCost(cur - p - 1, n) else p in Positions(t)
    {
      assert p < cur;
      SameRoom(x, p, cur, n);
      FallsAt(d, e, cur, n);
      if maxLen < n <= len {
        NearestRoot(x, m, t, p);
        assert Tried(e, cur, t.pos, n);
        MatchCostMonotone(cur - t.pos - 1, cur - p - 1, n);
      }
    }
  }

  lemma SameRoom(x: seq<Byte>, p: nat, q: nat, n: nat)
    requires Same(x, p, q, n)
    ensures q + n <= |x|
  {
  }

  lemma FallsSize(d: Table, e: Table, cur: nat)
    requires Falls(d, e, cur)
    ensures |e.cost| == |d.cost| && |e.mpos| == |d.mpos| && |e.mlen| == |d.mlen|
  {
  }

  lemma FallsAt(d: Table, e: Table, cur: nat, n: nat)
    requires Falls(d, e, cur) && cur + n < |d.cost| && |e.cost| == |d.cost|
    ensures e.cost[cur + n] <= d.cost[cur + n] && e.cost[cur] == d.cost[cur]
  {
  }

  /** No position of a tree is nearer than its root. */
  lemma NearestRoot(x: seq<Byte>, m: nat, t: Tree, p: nat)
    requires Ordered(x, m, t) && p in Positions(t)
    ensures t.Node? && p <= t.pos
  {
    if p in Positions(t.lt) { BelowAt(t.lt, t.pos, p); }
    if p in Positions(t.gt) { BelowAt(t.gt, t.pos, p); }
  }

  /** What is passed by on the way down agrees with cur no longer than the root did. */
  lemma SoughtDown(x: seq<Byte>, d: Table, cur: nat, t0: Tree, t: Tree, m: nat, maxLen: nat, k: nat)
    requires Sought(x, d, cur, t0, t, maxLen) && t.Node? && Ordered(x, m, t) && m == |x| - cur && t.pos < cur
    requires k < m && k <= maxLen && Same(x, t.pos, cur, k) && x[t.pos + k] != x[cur + k]
    ensures x[t.pos + k] < x[cur + k] ==> Sought(x, d, cur, t0, t.gt, maxLen)
    ensures x[t.pos + k] > x[cur + k] ==> Sought(x, d, cur, t0, t.lt, maxLen)
  {
    forall p, n | p in Positions(t0) && n >= 4 && Same(x, p, cur, n) && n > maxLen
      ensures p in Positions(t) && (x[t.pos + k] < x[cur + k] ==> p in Positions(t.gt))
      ensures x[t.pos + k] > x[cur + k] ==> p in Positions(t.lt)
    {
      assert p in Positions(t);
      SamePrefix(x, p, cur, n, k + 1);
      if p == t.pos {
        SameAt(x, p, cur, n, k);
      } else if p in Positions(t.lt) {
        if x[t.pos + k] < x[cur + k] { BeyondDiffers(x, p, t.pos, cur, k, m, true); }
      } else {
        if x[t.pos + k] > x[cur + k] { BeyondDiffers(x, p, t.pos, cur, k, m, false); }
      }
    }
  }

  // ---- The forest ----

  /** How many characters are compared at cur. */
  function Limit(n: nat, cur: nat, acceptLen: nat): nat
    requires cur <= n
  {
    if acceptLen < n - cur then acceptLen else n - cur
  }

  /** The tree of hash h, rooted at r: ordered, and made of earlier positions with that hash. */
  ghost predicate TreeOk(x: seq<Byte>, m: nat, nodes: seq<nat>, r: nat, t: Tree, h: nat, cur: nat) {
    Rep(nodes, r, t) && Ordered(x, m, t) && Below(t, cur) && Hashed(x, t, h)
  }

  ghost predicate Hashed(x: seq<Byte>, t: Tree, h: nat) {
    forall p :: p in Positions(t) ==> p + 4 <= |x| && Hash4(x, p) == h
  }

  ghost predicate Forest(x: seq<Byte>, m: nat, nodes: seq<nat>, lookup: seq<nat>, trees: seq<Tree>, cur: nat) {
    && |lookup| == |trees| == LOOKUP_SIZE && |nodes| == 2 * |x|
    && forall h :: 0 <= h < LOOKUP_SIZE ==> TreeOk(x, m, nodes, lookup[h], trees[h], h, cur)
  }

  /** The forest after cur has become the root of its tree. */
  lemma ForestNext(x: seq<Byte>, m: nat, nodes: seq<nat>, lookup: seq<nat>, trees: seq<Tree>, cur: nat, fin: seq<nat>,
                   depth: nat, next: nat)
    requires Forest(x, m, nodes, lookup, trees, cur) && cur + m <= |x| && cur + 4 <= |x| && next <= m
    requires var t := trees[Hash4(x, cur)];
             Below(t, cur) && Rep(fin, cur, Rerooted(x, m, t, cur, depth)) && Untouched(fin, nodes, t, cur)
    ensures var h := Hash4(x, cur);
            Forest(x, next, fin, lookup[h := cur], trees[h := Rerooted(x, m, trees[h], cur, depth)], cur + 1)
  {
    hide Hash4, Ordered, Rep, Below, Untouched, Rerooted;
    var h0, t0 := Hash4(x, cur), trees[Hash4(x, cur)];
    assert TreeOk(x, m, nodes, lookup[h0], t0, h0, cur);
    RerootedOrdered(x, m, t0, cur, depth);
    var t1 := Rerooted(x, m, t0, cur, depth);
    OrderedPrefix(x, m, next, t1);
    FinSize(fin, nodes, t0, cur);
    var lookup', trees', c := lookup[h0 := cur], trees[h0 := t1], cur + 1;
    forall h | 0 <= h < LOOKUP_SIZE ensures TreeOk(x, next, fin, lookup'[h], trees'[h], h, c) {
      if h != h0 {
        OtherTree(x, m, nodes, lookup[h], trees[h], h, cur, fin, t0, h0, next);
      }
    }
  }

  lemma FinSize(fin: seq<nat>, nodes: seq<nat>, t: Tree, cur: nat)
    requires Untouched(fin, nodes, t, cur)
    ensures |fin| == |nodes|
  {
  }

  /** Trees of other hashes are left alone. */
  lemma OtherTree(x: seq<Byte>, m: nat, nodes: seq<nat>, r: nat, t: Tree, h: nat, cur: nat, fin: seq<nat>, t0: Tree, h0: nat, next: nat)
    requires TreeOk(x, m, nodes, r, t, h, cur) && Hashed(x, t0, h0) && h != h0 && Untouched(fin, nodes, t0, cur) && next <= m
    ensures TreeOk(x, next, fin, r, t, h, cur + 1)
  {
    hide Hash4;
    OrderedPrefix(x, m, next, t);
    BelowMonotone(t, cur, cur + 1);
    NotBelow(t, cur);
    forall p | p in Positions(t) && 2 * p + 1 < |nodes| ensures fin[2 * p] == nodes[2 * p] && fin[2 * p + 1] == nodes[2 * p + 1] {
      assert 2 * p / 2 == p && (2 * p + 1) / 2 == p && p !in Positions(t0);
    }
    RepFrame(nodes, fin, r, t);
  }

  /** Every earlier position is in its tree, or one nearer that agrees with it as far as can still matter. */
  ghost predicate Covered(x: seq<Byte>, trees: seq<Tree>, cur: nat) {
    && |trees| == LOOKUP_SIZE && cur <= |x|
    && forall p :: 0 <= p < cur && p + 4 <= |x| ==> Covers(x, trees[Hash4(x, p)], p, |x| - cur)
  }

  ghost predicate Covers(x: seq<Byte>, t: Tree, p: nat, k: nat) {
    exists q :: q in Positions(t) && p <= q && Same(x, p, q, k)
  }

  lemma CoveredNext(x: seq<Byte>, trees: seq<Tree>, cur: nat, depth: nat)
    requires Covered(x, trees, cur) && cur + 4 <= |x| && cur <= depth
    requires Below(trees[Hash4(x, cur)], cur) && Ordered(x, |x| - cur, trees[Hash4(x, cur)])
    ensures var h := Hash4(x, cur);
            Covered(x, trees[h := Rerooted(x, |x| - cur, trees[h], cur, depth)], cur + 1)
  {
    hide Hash4, Covers, Rerooted, Below, Ordered;
    var h0 := Hash4(x, cur);
    var t0, m := trees[h0], |x| - cur;
    var trees' := trees[h0 := Rerooted(x, m, t0, cur, depth)];
    forall p | 0 <= p < cur + 1 && p + 4 <= |x| ensures Covers(x, trees'[Hash4(x, p)], p, m - 1) {
      if p == cur {
        CurCovered(x, m, t0, cur, depth);
      } else {
        CoverStays(x, trees, cur, depth, p, trees');
      }
    }
  }

  lemma CurCovered(x: seq<Byte>, m: nat, t: Tree, cur: nat, depth: nat)
    requires 0 < m && cur + m <= |x| && Below(t, cur)
    ensures Covers(x, Rerooted(x, m, t, cur, depth), cur, m - 1)
  {
    hide Split;
    assert Same(x, cur, cur, m - 1) && cur in Positions(Rerooted(x, m, t, cur, depth));
  }

  lemma CoverStays(x: seq<Byte>, trees: seq<Tree>, cur: nat, depth: nat, p: nat, trees': seq<Tree>)
    requires Covered(x, trees, cur) && cur + 4 <= |x| && cur <= depth && p < cur && p + 4 <= |x|
    requires Below(trees[Hash4(x, cur)], cur) && Ordered(x, |x| - cur, trees[Hash4(x, cur)])
    requires trees' == trees[Hash4(x, cur) := Rerooted(x, |x| - cur, trees[Hash4(x, cur)], cur, depth)]
    ensures Covers(x, trees'[Hash4(x, p)], p, |x| - cur - 1)
  {
    hide Hash4, Split;
    var h0, h, m := Hash4(x, cur), Hash4(x, p), |x| - cur;
    var t0 := trees[h0];
    assert Covers(x, trees[h], p, m);
    var q :| q in Positions(trees[h]) && p <= q && Same(x, p, q, m);
    SamePrefix(x, p, q, m, m - 1);
    if h == h0 {
      BelowMonotone(t0, cur, depth);
      LostToCur(x, m, t0, cur, depth, q);
      BelowAt(t0, cur, q);
      if Same(x, q, cur, m) {
        SameTrans(x, p, q, cur, m);
        SamePrefix(x, p, cur, m, m - 1);
        assert cur in Positions(trees'[h]);
      } else {
        assert q in Positions(trees'[h]);
      }
    } else {
      assert q in Positions(trees'[h]);
    }
  }

  /** When all the tree's matches have been tried, every match the format allows has been. */
  lemma NowRelaxed(x: seq<Byte>, d: Table, cur: nat, trees: seq<Tree>, maxDepth: nat, acceptLen: nat)
    requires Covered(x, trees, cur) && cur + 4 <= |x| && Sized(d, |x|) && d.cost[cur + 1] <= d.cost[cur] + LITERAL_COST
    requires Sought(x, d, cur, trees[Hash4(x, cur)], Leaf, |x| - cur)
    ensures Relaxed(x, d, cur, maxDepth, acceptLen)
  {
    forall p, n | TrueMatch(x, cur, p, n) ensures d.cost[cur + n] <= d.cost[cur] + MatchCost(cur - p - 1, n) {
      SameHash(x, p, cur, n);
      assert Covers(x, trees[Hash4(x, p)], p, |x| - cur);
      hide Hash4;
      var q :| q in Positions(trees[Hash4(x, p)]) && p <= q && Same(x, p, q, |x| - cur);
      SamePrefix(x, p, q, |x| - cur, n);
      SameTrans(x, p, q, p, n);
      assert Same(x, q, cur, n);
      MatchCostMonotone(cur - q - 1, cur - p - 1, n);
    }
  }

  /** Every length of the match with p has been tried. */
  ghost predicate RootTried(x: seq<Byte>, d: Table, cur: nat, p: nat) {
    p < cur && forall k: nat :: k >= 4 && Agree(x, p, cur, k) ==> Tried(d, cur, p, k)
  }

  lemma RootStays(x: seq<Byte>, d: Table, e: Table, cur: nat, p: nat)
    requires RootTried(x, d, cur, p) && Falls(d, e, cur)
    ensures RootTried(x, e, cur, p)
  {
    hide MatchCost;
    forall k: nat | k >= 4 && Agree(x, p, cur, k) ensures Tried(e, cur, p, k) {
      assert Tried(d, cur, p, k);
    }
  }

  /** Within limits: the root, which is the last position of the same hash, has been tried where matches are looked for. */
  lemma RootRelaxes(x: seq<Byte>, d: Table, cur: nat, root: nat, checking: bool, maxDepth: nat, acceptLen: nat)
    requires cur + 4 <= |x| < NO_MATCH && Sized(d, |x|) && d.cost[cur + 1] <= d.cost[cur] + LITERAL_COST
    requires root == Recent(x, Hash4(x, cur), cur, 0) && (checking || !Quiet(x, cur, acceptLen))
    requires checking && maxDepth >= 1 && root != NO_MATCH ==> RootTried(x, d, cur, root)
    requires maxDepth < |x| || acceptLen < |x|
    ensures Relaxed(x, d, cur, maxDepth, acceptLen)
  {
    hide MatchCost, Hash4, Quiet;
    forall q, len | TrueMatch(x, cur, q, len) && Offered(x, cur, q, maxDepth, acceptLen)
      ensures d.cost[cur + len] <= d.cost[cur] + MatchCost(cur - q - 1, len)
    {
      RecentLast(x, cur, q, cur);
      MatchAgrees(x, cur, q, len);
      assert Tried(d, cur, q, len);
    }
  }

  lemma MatchAgrees(x: seq<Byte>, cur: nat, q: nat, len: nat)
    requires TrueMatch(x, cur, q, len)
    ensures len >= 4 && Agree(x, q, cur, len)
  {
  }

  /** Where to look for matches next: where it was, or behind a match of cur that is long enough. */
  ghost predicate Jumps(x: seq<Byte>, cur: nat, next: nat, next': nat, acceptLen: nat) {
    next' == next || exists p: nat, n: nat :: p < cur && n >= acceptLen && Agree(x, p, cur, n) && next' == cur + n
  }

  /** Strings that match hash alike. */
  lemma SameHash(x: seq<Byte>, p: nat, cur: nat, n: nat)
    requires TrueMatch(x, cur, p, n)
    ensures p + 4 <= |x| && cur + 4 <= |x| && Hash4(x, p) == Hash4(x, cur)
  {
    SameAt(x, p, cur, n, 0);
    SameAt(x, p, cur, n, 1);
    SameAt(x, p, cur, n, 2);
    SameAt(x, p, cur, n, 3);
  }

  /** What sought has come to when nothing is left, or all lengths are had. */
  lemma SoughtAll(x: seq<Byte>, d: Table, cur: nat, t0: Tree, t: Tree, maxLen: nat)
    requires Sought(x, d, cur, t0, t, maxLen) && (t == Leaf || maxLen >= |x| - cur)
    ensures Sought(x, d, cur, t0, Leaf, |x| - cur)
  {
  }

  // ---- Searching the tree of cur's hash ----

  lemma CommonMin(x: seq<Byte>, pos: nat, cur: nat, m: nat, limit: nat, len: nat)
    requires pos < cur && cur + limit <= |x| && m <= limit && len <= limit && Agree(x, pos, cur, len)
    requires len < limit ==> x[pos + len] != x[cur + len]
    ensures Common(x, pos, cur, 0, m) == if len < m then len else m
    ensures Same(x, pos, cur, Common(x, pos, cur, 0, m))
  {
    var k := if len < m then len else m;
    AgreeFewer(x, pos, cur, len, k);
    CommonIs(x, pos, cur, 0, m, k);
  }

  /** Tries what the root has to offer beyond the lengths had so far. */
  method TryRoot(cost: array<nat>, mpos: array<nat>, mlen: array<nat>, x: seq<Byte>, cur: nat, pos: nat, maxLen: nat, len: nat,
                 acceptLen: nat, next0: nat, ghost exact: bool, ghost full: bool, ghost t0: Tree, ghost t: Tree, ghost m: nat)
    returns (next: nat)
    requires Distinct(cost, mpos, mlen) && Kept(x, View(cost, mpos, mlen), cur, exact)
    requires pos < cur && 3 <= maxLen < len && Agree(x, pos, cur, len) && t.Node? && t.pos == pos && Ordered(x, m, t)
    requires full ==> Sought(x, View(cost, mpos, mlen), cur, t0, t, maxLen) && acceptLen >= |x|
    modifies cost, mpos, mlen
    ensures Kept(x, View(cost, mpos, mlen), cur, exact) && Falls(old(View(cost, mpos, mlen)), View(cost, mpos, mlen), cur)
    ensures full ==> Sought(x, View(cost, mpos, mlen), cur, t0, t, len) && next == next0
    ensures Jumps(x, cur, next0, next, acceptLen)
    ensures forall k: nat :: maxLen + 1 <= k < len + 1 ==> Tried(View(cost, mpos, mlen), cur, pos, k)
  {
    ghost var d := View(cost, mpos, mlen);
    AgreeRoom(x, pos, cur, len);
    hide Kept, Sought, Agree, Tried, Ordered;
    TryLengths(cost, mpos, mlen, x, cur, pos, maxLen + 1, len, exact);
    if full {
      SoughtHere(x, d, View(cost, mpos, mlen), cur, t0, t, m, maxLen, len);
    }
    next := if len >= acceptLen then cur + len else next0;
  }

  lemma AgreeRoom(x: seq<Byte>, pos: nat, cur: nat, len: nat)
    requires Agree(x, pos, cur, len)
    ensures cur + len <= |x|
  {
  }

  /** At the bottom of the tree the slots stay empty. */
  method CloseSlots(nodes: array<nat>, x: seq<Byte>, cur: nat, pos: nat, lt: nat, gt: nat, ghost m: nat, ghost was: seq<nat>,
                    ghost t0: Tree, ghost t: Tree, ghost depth: nat, ghost whole: (Tree, Tree))
    requires Descending(x, m, cur, nodes[..], was, t0, t, pos, lt, gt, depth, whole) && (pos == NO_MATCH || depth == 0)
    modifies nodes
    ensures Rep(nodes[..], cur, Node(cur, whole.0, whole.1)) && Untouched(nodes[..], was, t0, cur)
  {
    DescendBottom(x, m, cur, nodes[..], was, t0, t, pos, lt, gt, depth, whole);
    hide Descending, Rep, Untouched;
    nodes[lt] := NO_MATCH;
    nodes[gt] := NO_MATCH;
  }

  /** A string equal to cur's leaves its subtrees to the slots. */
  method ReplaceRoot(nodes: array<nat>, x: seq<Byte>, cur: nat, pos: nat, lt: nat, gt: nat, ghost m: nat, ghost was: seq<nat>,
                     ghost t0: Tree, ghost t: Tree, ghost depth: nat, ghost whole: (Tree, Tree))
    requires Descending(x, m, cur, nodes[..], was, t0, t, pos, lt, gt, depth, whole) && pos != NO_MATCH && depth > 0
    requires pos < cur && cur + m <= |x| && Common(x, pos, cur, 0, m) == m
    modifies nodes
    ensures Rep(nodes[..], cur, Node(cur, whole.0, whole.1)) && Untouched(nodes[..], was, t0, cur)
  {
    DescendEqual(x, m, cur, nodes[..], was, t0, t, pos, lt, gt, depth, whole);
    DescendHere(x, m, cur, nodes[..], was, t0, t, pos, lt, gt, depth, whole);
    hide Descending, Rep, Untouched, Common;
    nodes[lt] := nodes[2 * pos];
    nodes[gt] := nodes[2 * pos + 1];
  }

  /** Passes by the root: it goes into one of the slots, and the subtree between it and cur comes next. */
  method PassRoot(nodes: array<nat>, x: seq<Byte>, cur: nat, pos: nat, lt: nat, gt: nat, len: nat, ghost m: nat, ghost was: seq<nat>,
                  ghost t0: Tree, ghost t: Tree, ghost depth: nat, ghost whole: (Tree, Tree))
    returns (pos': nat, lt': nat, gt': nat)
    requires Descending(x, m, cur, nodes[..], was, t0, t, pos, lt, gt, depth, whole) && pos != NO_MATCH && depth > 0
    requires pos < cur && cur + m <= |x| && Common(x, pos, cur, 0, m) == len < m
    modifies nodes
    ensures t.Node?
    ensures if x[pos + len] < x[cur + len]
            then Descending(x, m, cur, nodes[..], was, t0, t.gt, pos', lt', gt', depth - 1, whole)
            else Descending(x, m, cur, nodes[..], was, t0, t.lt, pos', lt', gt', depth - 1, whole)
  {
    DescendDown(x, m, cur, nodes[..], was, t0, t, pos, lt, gt, depth, whole, len);
    DescendHere(x, m, cur, nodes[..], was, t0, t, pos, lt, gt, depth, whole);
    hide Descending, Common;
    lt', gt' := lt, gt;
    if x[pos + len] < x[cur + len] {
      nodes[lt] := pos;
      lt' := 2 * pos + 1;
      pos' := nodes[lt'];
    } else {
      nodes[gt] := pos;
      gt' := 2 * pos;
      pos' := nodes[gt'];
    }
  }

  /** The way down so far, and what has been tried on it. */
  ghost predicate Underway(x: seq<Byte>, d: Table, cur: nat, m: nat, t0: Tree, t: Tree, maxLen: nat, depth: nat,
                           lo: nat, ltLen: nat, hi: nat, gtLen: nat, exact: bool, full: bool) {
    && Bounded(x, m, t, cur, lo, ltLen, hi, gtLen) && Kept(x, d, cur, exact) && maxLen >= 3
    && (full ==> Sought(x, d, cur, t0, t, maxLen) && Below(t, depth) && m == |x| - cur)
  }

  /** Passing by the root keeps all that. */
  lemma UnderwayDown(x: seq<Byte>, d: Table, cur: nat, m: nat, t0: Tree, t: Tree, maxLen: nat, depth: nat,
                     lo: nat, ltLen: nat, hi: nat, gtLen: nat, exact: bool, full: bool, len: nat)
    requires Underway(x, d, cur, m, t0, t, maxLen, depth, lo, ltLen, hi, gtLen, exact, full)
    requires t.Node? && Ordered(x, m, t) && t.pos < cur && len < m && Same(x, t.pos, cur, len) && x[t.pos + len] != x[cur + len]
    requires (full ==> len <= maxLen) && depth > 0
    ensures x[t.pos + len] < x[cur + len] ==>
              Underway(x, d, cur, m, t0, t.gt, maxLen, depth - 1, t.pos, len, hi, gtLen, exact, full)
    ensures x[t.pos + len] > x[cur + len] ==>
              Underway(x, d, cur, m, t0, t.lt, maxLen, depth - 1, lo, ltLen, t.pos, len, exact, full)
  {
    hide Bounded, Kept, Sought, Below, Ordered, Same;
    BoundedDown(x, m, t, cur, lo, ltLen, hi, gtLen, len);
    if full {
      SoughtDown(x, d, cur, t0, t, m, maxLen, len);
      BelowDown(x, m, t, depth);
    }
  }

  /** One look at the root: its match measured, and tried if it is longer than those before. */
  method LookAtRoot(cost: array<nat>, mpos: array<nat>, mlen: array<nat>, x: seq<Byte>, cur: nat, pos: nat, ltLen: nat, gtLen: nat,
                    maxLen0: nat, limit: nat, checking: bool, acceptLen: nat, next0: nat,
                    ghost m: nat, ghost t0: Tree, ghost t: Tree, ghost depth: nat, ghost lo: nat, ghost hi: nat,
                    ghost exact: bool, ghost full: bool)
    returns (len: nat, maxLen: nat, next: nat)
    requires Distinct(cost, mpos, mlen) && t.Node? && t.pos == pos < cur && Ordered(x, m, t) && m <= limit && cur + limit <= |x|
    requires Underway(x, View(cost, mpos, mlen), cur, m, t0, t, maxLen0, depth, lo, ltLen, hi, gtLen, exact, full)
    requires full ==> checking && acceptLen >= |x|
    modifies cost, mpos, mlen
    ensures Underway(x, View(cost, mpos, mlen), cur, m, t0, t, maxLen, depth, lo, ltLen, hi, gtLen, exact, full)
    ensures Falls(old(View(cost, mpos, mlen)), View(cost, mpos, mlen), cur)
    ensures len <= limit && (full ==> next == next0 && len <= maxLen) && (len < limit ==> x[pos + len] != x[cur + len])
    ensures Common(x, pos, cur, 0, m) == (if len < m then len else m) && Same(x, pos, cur, Common(x, pos, cur, 0, m))
    ensures Jumps(x, cur, next0, next, acceptLen)
    ensures checking && maxLen0 == 3 && limit == |x| - cur ==> RootTried(x, View(cost, mpos, mlen), cur, pos)
  {
    KnownLength(x, m, t, cur, lo, ltLen, hi, gtLen);
    len := MatchLength(x, pos, cur, if ltLen < gtLen then ltLen else gtLen, limit);
    CommonMin(x, pos, cur, m, limit, len);
    maxLen, next := maxLen0, next0;
    KeptSize(x, View(cost, mpos, mlen), cur, exact);
    if limit == |x| - cur { NoLonger(x, pos, cur, len); }
    hide Bounded, Kept, Sought, Below, Ordered, Same, Agree, Common, Tried;
    if checking && len > maxLen {
      next := TryRoot(cost, mpos, mlen, x, cur, pos, maxLen, len, acceptLen, next, exact, full, t0, t, m);
      maxLen := len;
    }
  }

  lemma NoLonger(x: seq<Byte>, pos: nat, cur: nat, len: nat)
    requires pos < cur && cur + len <= |x| && (cur + len < |x| ==> x[pos + len] != x[cur + len])
    ensures forall k: nat :: Agree(x, pos, cur, k) ==> k <= len
  {
    forall k: nat | Agree(x, pos, cur, k) ensures k <= len {
      AgreeAt(x, pos, cur, k, len);
    }
  }

  lemma AgreeAt(x: seq<Byte>, pos: nat, cur: nat, len: nat, k: nat)
    requires Agree(x, pos, cur, len)
    ensures k < len ==> x[pos + k] == x[cur + k]
  {
    if k < len {
      assert x[pos..pos + len][k] == x[cur..cur + len][k];
    }
  }

  /** What a step down leaves: the end reached, or the search on its way further down. */
  ghost predicate Stepped(x: seq<Byte>, d: Table, cur: nat, m: nat, nodes: seq<nat>, was: seq<nat>, t0: Tree, t: Tree, pos: nat,
                          lt: nat, gt: nat, maxLen: nat, depth: nat, lo: nat, ltLen: nat, hi: nat, gtLen: nat,
                          exact: bool, full: bool, whole: (Tree, Tree), done: bool) {
    if done then
      && Kept(x, d, cur, exact) && Rep(nodes, cur, Node(cur, whole.0, whole.1)) && Untouched(nodes, was, t0, cur)
      && (full ==> Sought(x, d, cur, t0, Leaf, |x| - cur))
    else
      && Descending(x, m, cur, nodes, was, t0, t, pos, lt, gt, depth, whole)
      && Underway(x, d, cur, m, t0, t, maxLen, depth, lo, ltLen, hi, gtLen, exact, full)
  }

  /** One step of the search. */
  method SearchStep(cost: array<nat>, mpos: array<nat>, mlen: array<nat>, nodes: array<nat>, x: seq<Byte>, cur: nat, pos: nat,
                    lt: nat, gt: nat, ltLen: nat, gtLen: nat, maxLen: nat, limit: nat, numChain: nat, checking: bool, acceptLen: nat, next: nat,
                    ghost m: nat, ghost was: seq<nat>, ghost t0: Tree, ghost t: Tree, ghost lo: nat, ghost hi: nat,
                    ghost exact: bool, ghost full: bool, ghost whole: (Tree, Tree))
    returns (done: bool, pos': nat, lt': nat, gt': nat, ltLen': nat, gtLen': nat, maxLen': nat, next': nat,
             ghost t': Tree, ghost lo': nat, ghost hi': nat)
    requires Distinct(cost, mpos, mlen) && nodes != cost && nodes != mpos && nodes != mlen
    requires Stepped(x, View(cost, mpos, mlen), cur, m, nodes[..], was, t0, t, pos, lt, gt, maxLen, numChain,
                     lo, ltLen, hi, gtLen, exact, full, whole, false)
    requires LimitOk(x, cur, m, limit, checking, acceptLen) && (full ==> checking && acceptLen >= |x|)
    modifies cost, mpos, mlen, nodes
    ensures !done ==> numChain > 0
    ensures Stepped(x, View(cost, mpos, mlen), cur, m, nodes[..], was, t0, t', pos', lt', gt', maxLen',
                    if done then 0 else numChain - 1, lo', ltLen', hi', gtLen', exact, full, whole, done)
    ensures Falls(old(View(cost, mpos, mlen)), View(cost, mpos, mlen), cur) && (full ==> next' == next)
    ensures Jumps(x, cur, next, next', acceptLen)
    ensures checking && maxLen == 3 && numChain > 0 && pos != NO_MATCH ==> RootTried(x, View(cost, mpos, mlen), cur, pos)
  {
    hide Kept, Sought, Descending, Ordered, Below, Split, Rep, Untouched, Common, Same, Underway, Falls, RootTried, Jumps;
    JumpsNot(x, cur, next, acceptLen);
    done, pos', lt', gt', ltLen', gtLen', maxLen', next', t', lo', hi' := true, pos, lt, gt, ltLen, gtLen, maxLen, next, t, lo, hi;
    DescendHere(x, m, cur, nodes[..], was, t0, t, pos, lt, gt, numChain, whole);
    if pos == NO_MATCH || numChain == 0 {
      FallsNot(View(cost, mpos, mlen), cur);
      UnderwayEnds(x, View(cost, mpos, mlen), cur, m, t0, t, maxLen, numChain, lo, ltLen, hi, gtLen, exact, full);
      CloseSlots(nodes, x, cur, pos, lt, gt, m, was, t0, t, numChain, whole);
      return;
    }
    var len;
    len, maxLen', next' := LookAtRoot(cost, mpos, mlen, x, cur, pos, ltLen, gtLen, maxLen, limit, checking, acceptLen, next,
      m, t0, t, numChain, lo, hi, exact, full);
    if len >= acceptLen || len == limit {
      UnderwayEnds(x, View(cost, mpos, mlen), cur, m, t0, t, maxLen', numChain, lo, ltLen, hi, gtLen, exact, full);
      ReplaceRoot(nodes, x, cur, pos, lt, gt, m, was, t0, t, numChain, whole);
      return;
    }
    UnderwayDown(x, View(cost, mpos, mlen), cur, m, t0, t, maxLen', numChain, lo, ltLen, hi, gtLen, exact, full, len);
    pos', lt', gt' := PassRoot(nodes, x, cur, pos, lt, gt, len, m, was, t0, t, numChain, whole);
    done := false;
    if x[pos + len] < x[cur + len] {
      t', lo', ltLen' := t.gt, pos, len;
    } else {
      t', hi', gtLen' := t.lt, pos, len;
    }
  }

  lemma JumpsNot(x: seq<Byte>, cur: nat, next: nat, acceptLen: nat)
    ensures Jumps(x, cur, next, next, acceptLen)
  {
  }

  lemma JumpsTwice(x: seq<Byte>, cur: nat, next: nat, next': nat, next'': nat, acceptLen: nat)
    requires Jumps(x, cur, next, next', acceptLen) && Jumps(x, cur, next', next'', acceptLen)
    ensures Jumps(x, cur, next, next'', acceptLen)
  {
  }

  lemma FallsNot(d: Table, cur: nat)
    ensures Falls(d, d, cur)
  {
  }

  /** How far strings are compared: all the way when matches are looked for, else as far as order goes. */
  ghost predicate LimitOk(x: seq<Byte>, cur: nat, m: nat, limit: nat, checking: bool, acceptLen: nat) {
    && cur <= |x| && m == Limit(|x|, cur, acceptLen) && limit == if checking then |x| - cur else m
  }

  /**
   * Goes down the tree of cur's hash, trying its matches and making cur its root. At full depth
   * and length every match of cur has then been tried.
   */
  method SearchTree(cost: array<nat>, mpos: array<nat>, mlen: array<nat>, nodes: array<nat>, x: seq<Byte>, cur: nat, root: nat,
                    checking: bool, next0: nat, maxDepth: nat, acceptLen: nat,
                    ghost exact: bool, ghost full: bool, ghost t0: Tree)
    returns (next: nat)
    requires Distinct(cost, mpos, mlen) && nodes != cost && nodes != mpos && nodes != mlen && nodes.Length == 2 * |x|
    requires Kept(x, View(cost, mpos, mlen), cur, exact) && |x| < NO_MATCH && cur + 4 <= |x|
    requires Rep(nodes[..], root, t0) && Ordered(x, Limit(|x|, cur, acceptLen), t0) && Below(t0, cur)
    requires full ==> checking && maxDepth >= |x| && acceptLen >= |x|
    modifies cost, mpos, mlen, nodes
    ensures Kept(x, View(cost, mpos, mlen), cur, exact) && Falls(old(View(cost, mpos, mlen)), View(cost, mpos, mlen), cur)
    ensures Rep(nodes[..], cur, Rerooted(x, Limit(|x|, cur, acceptLen), t0, cur, maxDepth))
    ensures Untouched(nodes[..], old(nodes[..]), t0, cur)
    ensures full ==> Sought(x, View(cost, mpos, mlen), cur, t0, Leaf, |x| - cur) && next == next0
    ensures checking && maxDepth >= 1 && root != NO_MATCH ==> RootTried(x, View(cost, mpos, mlen), cur, root)
    ensures Jumps(x, cur, next0, next, acceptLen)
  {
    ghost var d0, was, t := View(cost, mpos, mlen), nodes[..], t0;
    var m := Limit(|x|, cur, acceptLen);
    ghost var whole := Split(x, m, t0, cur, maxDepth);
    var pos: nat, lt: nat, gt: nat := root, 2 * cur, 2 * cur + 1;
    var ltLen: nat, gtLen: nat, maxLen: nat, numChain: nat := 0, 0, 3, maxDepth;
    ghost var lo: nat, hi: nat := 0, 0;
    var limit := if checking then |x| - cur else m;
    next := next0;
    var done := false;
    UnderwayStart(x, d0, cur, m, t0, maxDepth, exact, full);
    DescendStart(x, m, cur, was, t0, root, maxDepth);
    FallsNot(d0, cur);
    assert Stepped(x, View(cost, mpos, mlen), cur, m, nodes[..], was, t0, t, pos, lt, gt, maxLen, numChain,
                   lo, ltLen, hi, gtLen, exact, full, whole, done);
    hide Stepped, Kept, Sought, Ordered, Below, Split, Rep, Untouched, Falls, RootTried, Jumps;
    JumpsNot(x, cur, next, acceptLen);
    while !done
      invariant Stepped(x, View(cost, mpos, mlen), cur, m, nodes[..], was, t0, t, pos, lt, gt, maxLen, numChain,
                        lo, ltLen, hi, gtLen, exact, full, whole, done)
      invariant Falls(d0, View(cost, mpos, mlen), cur) && (full ==> next == next0) && Jumps(x, cur, next0, next, acceptLen)
      invariant checking && maxDepth >= 1 && root != NO_MATCH && (done || numChain < maxDepth) ==> RootTried(x, View(cost, mpos, mlen), cur, root)
      invariant !done && numChain == maxDepth ==> pos == root && maxLen == 3
      decreases !done, numChain
    {
      ghost var d, next', first := View(cost, mpos, mlen), next, numChain == maxDepth;
      done, pos, lt, gt, ltLen, gtLen, maxLen, next, t, lo, hi := SearchStep(cost, mpos, mlen, nodes, x, cur, pos, lt, gt, ltLen, gtLen,
        maxLen, limit, numChain, checking, acceptLen, next, m, was, t0, t, lo, hi, exact, full, whole);
      FallsTwice(d0, d, View(cost, mpos, mlen), cur);
      JumpsTwice(x, cur, next0, next', next, acceptLen);
      if checking && !first && maxDepth >= 1 && root != NO_MATCH {
        RootStays(x, d, View(cost, mpos, mlen), cur, root);
      }
      numChain := if done then 0 else numChain - 1;
    }
    SteppedDone(x, View(cost, mpos, mlen), cur, m, nodes[..], was, t0, t, pos, lt, gt, maxLen, numChain,
                lo, ltLen, hi, gtLen, exact, full, whole);
  }

  lemma SteppedDone(x: seq<Byte>, d: Table, cur: nat, m: nat, nodes: seq<nat>, was: seq<nat>, t0: Tree, t: Tree, pos: nat,
                    lt: nat, gt: nat, maxLen: nat, depth: nat, lo: nat, ltLen: nat, hi: nat, gtLen: nat,
                    exact: bool, full: bool, whole: (Tree, Tree))
    requires Stepped(x, d, cur, m, nodes, was, t0, t, pos, lt, gt, maxLen, depth, lo, ltLen, hi, gtLen, exact, full, whole, true)
    ensures Kept(x, d, cur, exact) && Rep(nodes, cur, Node(cur, whole.0, whole.1)) && Untouched(nodes, was, t0, cur)
    ensures full ==> Sought(x, d, cur, t0, Leaf, |x| - cur)
  {
  }

  lemma UnderwayStart(x: seq<Byte>, d: Table, cur: nat, m: nat, t: Tree, depth: nat, exact: bool, full: bool)
    requires Kept(x, d, cur, exact) && Below(t, cur) && cur + m <= |x| && (full ==> m == |x| - cur && depth >= |x|)
    ensures Underway(x, d, cur, m, t, t, 3, depth, 0, 0, 0, 0, exact, full)
  {
    KeptSize(x, d, cur, exact);
    if full {
      SoughtStart(x, d, cur, t);
      BelowMonotone(t, cur, depth);
    }
  }

  lemma UnderwayEnds(x: seq<Byte>, d: Table, cur: nat, m: nat, t0: Tree, t: Tree, maxLen: nat, depth: nat,
                     lo: nat, ltLen: nat, hi: nat, gtLen: nat, exact: bool, full: bool)
    requires Underway(x, d, cur, m, t0, t, maxLen, depth, lo, ltLen, hi, gtLen, exact, full)
    ensures Kept(x, d, cur, exact)
    ensures full && (t == Leaf || depth == 0 || maxLen >= |x| - cur) ==> Sought(x, d, cur, t0, Leaf, |x| - cur)
  {
    hide Kept, Sought, Bounded;
    BelowNothing(t);
    if full && (t == Leaf || depth == 0 || maxLen >= |x| - cur) {
      SoughtAll(x, d, cur, t0, t, maxLen);
    }
  }

  lemma BelowNothing(t: Tree)
    ensures Below(t, 0) ==> t == Leaf
  {
  }

  lemma BelowDown(x: seq<Byte>, m: nat, t: Tree, bound: nat)
    requires Ordered(x, m, t) && t.Node? && Below(t, bound)
    ensures bound > 0 && Below(t.lt, bound - 1) && Below(t.gt, bound - 1)
  {
    BelowMonotone(t.lt, t.pos, bound - 1);
    BelowMonotone(t.gt, t.pos, bound - 1);
  }
}
