/** Levels 8 to 10 from end to end: the forwards parse, gathering the tokens in place, and writing them. */
module BlzBtparseMain {
  import opened Permutations
  import opened BlzFormat
  import opened BlzTokens
  import opened BlzEncoder
  import opened BlzPack
  import opened BlzChoice
  import opened BlzCost
  import opened BlzLeparse
  import opened BlzLeparseShared
  import opened BlzTree
  import opened BlzTreeArray
  import opened BlzForward
  import opened BlzBtparse

  const RESCALE_MARGIN := 128

  /** Costs of literals alone never come near the end of a word. */
  ghost predicate FarFromOverflow(n: nat) {
    LITERAL_COST * n + RESCALE_MARGIN < INFINITE
  }

  /** Before position cur is worked on: the table and the trees are as they should be. */
  ghost predicate Ready(x: seq<Byte>, d: Table, nodes: seq<nat>, lookup: seq<nat>, trees: seq<Tree>, cur: nat, maxDepth: nat,
                        acceptLen: nat, full: bool) {
    && AllArrive(x, d) && 1 <= cur <= |x| && Forest(x, Limit(|x|, cur, acceptLen), nodes, lookup, trees, cur)
    && LookupHolds(lookup, x, cur)
    && (FarFromOverflow(|x|) ==> AllPriced(x, d, cur) && Cheap(d, cur))
    && (full ==> Covered(x, trees, cur))
    && (FarFromOverflow(|x|) ==> AllRelaxed(x, d, cur, maxDepth, acceptLen))
  }

  lemma ReadyParts(x: seq<Byte>, d: Table, nodes: seq<nat>, lookup: seq<nat>, trees: seq<Tree>, cur: nat,
                   maxDepth: nat, acceptLen: nat, full: bool, h: nat)
    requires Ready(x, d, nodes, lookup, trees, cur, maxDepth, acceptLen, full) && h < LOOKUP_SIZE
    ensures AllArrive(x, d) && 1 <= cur <= |x| && |nodes| == 2 * |x| && |lookup| == LOOKUP_SIZE == |trees| && Sized(d, |x|)
    ensures Forest(x, Limit(|x|, cur, acceptLen), nodes, lookup, trees, cur)
    ensures Rep(nodes, lookup[h], trees[h]) && Ordered(x, Limit(|x|, cur, acceptLen), trees[h]) && Below(trees[h], cur)
    ensures FarFromOverflow(|x|) ==> AllPriced(x, d, cur) && Cheap(d, cur) && d.cost[cur] <= INFINITE - RESCALE_MARGIN
    ensures full ==> Covered(x, trees, cur)
    ensures FarFromOverflow(|x|) ==> AllRelaxed(x, d, cur, maxDepth, acceptLen)
    ensures LookupHolds(lookup, x, cur)
  {
    hide Rep, Ordered, Below, Hashed, Arrives;
    assert TreeOk(x, Limit(|x|, cur, acceptLen), nodes, lookup[h], trees[h], h, cur);
  }

  /** Lowers all costs from cur on by the least of them, when that of cur is near the end of a word. */
  method Rescale(cost: array<nat>, cur: nat, n: nat) returns (least: nat)
    requires cur <= n < cost.Length
    modifies cost
    ensures old(cost[cur]) <= INFINITE - RESCALE_MARGIN ==> least == 0
    ensures forall j :: 0 <= j < cost.Length ==>
              cost[j] == if cur <= j <= n && old(cost[j]) != INFINITE then old(cost[j]) - least else old(cost[j])
  {
    least := 0;
    if cost[cur] > INFINITE - RESCALE_MARGIN {
      least := INFINITE;
      var i := cur;
      while i <= n
        invariant cur <= i <= n + 1
        invariant forall k :: cur <= k < i ==> least <= cost[k]
      {
        if cost[i] < least { least := cost[i]; }
        i := i + 1;
      }
      i := cur;
      while i <= n
        invariant cur <= i <= n + 1
        invariant forall k :: i <= k < cost.Length || 0 <= k < cur ==> cost[k] == old(cost[k])
        invariant forall k :: cur <= k < i ==> cost[k] == if old(cost[k]) != INFINITE then old(cost[k]) - least else INFINITE
      {
        if cost[i] != INFINITE {
          cost[i] := cost[i] - least;
        }
        i := i + 1;
      }
    }
  }

  /** Rescaling changes costs only. */
  lemma CostsAside(x: seq<Byte>, d: Table, e: Table)
    requires AllArrive(x, d) && e.mpos == d.mpos && e.mlen == d.mlen && |e.cost| == |d.cost|
    ensures AllArrive(x, e)
  {
    forall j | 2 <= j <= |x| ensures Arrives(x, e, j) {
      assert Arrives(x, d, j);
    }
  }

  /** What a finished position leaves for the next. */
  lemma StepDone(x: seq<Byte>, d: Table, e: Table, f: Table, nodes: seq<nat>, fin: seq<nat>, lookup: seq<nat>, trees: seq<Tree>,
                 cur: nat, maxDepth: nat, acceptLen: nat, full: bool, checking: bool)
    requires Ready(x, d, nodes, lookup, trees, cur, maxDepth, acceptLen, full) && cur + 4 <= |x| < NO_MATCH
    requires checking || !Quiet(x, cur, acceptLen)
    requires checking && maxDepth >= 1 && lookup[Hash4(x, cur)] != NO_MATCH ==> RootTried(x, f, cur, lookup[Hash4(x, cur)])
    requires Kept(x, f, cur, FarFromOverflow(|x|)) && (FarFromOverflow(|x|) ==> Falls(d, e, cur) && Falls(e, f, cur)) && Sized(e, |x|)
    requires e.cost[cur + 1] <= e.cost[cur] + LITERAL_COST && Falls(e, f, cur)
    requires full <==> maxDepth >= |x| && acceptLen >= |x|
    requires var t := trees[Hash4(x, cur)];
             && Below(t, cur)
             && Rep(fin, cur, Rerooted(x, Limit(|x|, cur, acceptLen), t, cur, maxDepth)) && Untouched(fin, nodes, t, cur)
             && (full ==> Sought(x, f, cur, t, Leaf, |x| - cur))
    ensures var h := Hash4(x, cur);
            Below(trees[h], cur) &&
            Ready(x, f, fin, lookup[h := cur], trees[h := Rerooted(x, Limit(|x|, cur, acceptLen), trees[h], cur, maxDepth)],
                  cur + 1, maxDepth, acceptLen, full)
  {
    var m, h := Limit(|x|, cur, acceptLen), Hash4(x, cur);
    hide AllArrive, AllPriced, Cheap, Forest, Covered, AllRelaxed, Kept, Rep, Ordered, Below, Untouched, Sought, Hash4, Rerooted,
      LookupHolds, Quiet, RootTried, Relaxed;
    ReadyParts(x, d, nodes, lookup, trees, cur, maxDepth, acceptLen, full, h);
    KeptSize(x, f, cur, FarFromOverflow(|x|));
    ForestNext(x, m, nodes, lookup, trees, cur, fin, maxDepth, Limit(|x|, cur + 1, acceptLen));
    KeptNext(x, f, cur);
    LookupAt(lookup, x, cur);
    LookupNext(lookup, x, cur);
    LiteralTried(e, f, cur);
    if full {
      CoveredNext(x, trees, cur, maxDepth);
      NowRelaxed(x, f, cur, trees, maxDepth, acceptLen);
    } else {
      RootRelaxes(x, f, cur, lookup[h], checking, maxDepth, acceptLen);
    }
    if FarFromOverflow(|x|) {
      FallsTwice(d, e, f, cur);
      RelaxedNext(x, d, f, cur, maxDepth, acceptLen);
    }
  }

  lemma LiteralTried(e: Table, f: Table, cur: nat)
    requires cur + 1 < |e.cost| && e.cost[cur + 1] <= e.cost[cur] + LITERAL_COST && Falls(e, f, cur)
    ensures |f.cost| == |e.cost| && f.cost[cur + 1] <= f.cost[cur] + LITERAL_COST
  {
  }

  lemma KeptNext(x: seq<Byte>, f: Table, cur: nat)
    requires Kept(x, f, cur, FarFromOverflow(|x|))
    ensures AllArrive(x, f) && (FarFromOverflow(|x|) ==> AllPriced(x, f, cur + 1) && Cheap(f, cur + 1))
  {
  }

  lemma RelaxedNext(x: seq<Byte>, d: Table, f: Table, cur: nat, maxDepth: nat, acceptLen: nat)
    requires AllRelaxed(x, d, cur, maxDepth, acceptLen) && Falls(d, f, cur) && Sized(d, |x|) && cur < |x|
    requires Relaxed(x, f, cur, maxDepth, acceptLen)
    ensures AllRelaxed(x, f, cur + 1, maxDepth, acceptLen)
  {
    hide Relaxed;
    StaysRelaxed(x, d, f, cur, maxDepth, acceptLen);
  }

  /** Positions passed over in looking for matches lie in a match that is long enough. */
  ghost predicate Waits(x: seq<Byte>, cur: nat, next: nat, acceptLen: nat) {
    forall c :: cur <= c < next ==> !Quiet(x, c, acceptLen)
  }

  lemma WaitsNext(x: seq<Byte>, cur: nat, next: nat, next': nat, acceptLen: nat)
    requires Waits(x, cur, next, acceptLen) && Jumps(x, cur, if cur > next then cur else next, next', acceptLen)
    ensures Waits(x, cur + 1, next', acceptLen)
  {
    if next' != (if cur > next then cur else next) {
      forall c | cur + 1 <= c < next' ensures !Quiet(x, c, acceptLen) {
      }
    }
  }

  lemma WaitsHere(x: seq<Byte>, cur: nat, next: nat, acceptLen: nat)
    requires Waits(x, cur, next, acceptLen)
    ensures next > cur ==> !Quiet(x, cur, acceptLen)
  {
  }

  /** One position: a literal, and the matches its tree has. */
  method StepAt(cost: array<nat>, mpos: array<nat>, mlen: array<nat>, nodes: array<nat>, lookup: array<nat>, x: seq<Byte>, cur: nat,
                next0: nat, maxDepth: nat, acceptLen: nat, ghost trees: seq<Tree>, ghost full: bool)
    returns (next: nat, ghost trees': seq<Tree>)
    requires Apart(cost, mpos, mlen, nodes, lookup) && |x| < NO_MATCH && cur + 4 <= |x|
    requires Ready(x, View(cost, mpos, mlen), nodes[..], lookup[..], trees, cur, maxDepth, acceptLen, full)
    requires (full <==> maxDepth >= |x| && acceptLen >= |x|) && (full ==> next0 <= cur) && Waits(x, cur, next0, acceptLen)
    modifies cost, mpos, mlen, nodes, lookup
    ensures Ready(x, View(cost, mpos, mlen), nodes[..], lookup[..], trees', cur + 1, maxDepth, acceptLen, full)
    ensures (full ==> next <= cur) && Waits(x, cur + 1, next, acceptLen)
  {
    ghost var d, was, table := View(cost, mpos, mlen), nodes[..], lookup[..];
    var hash := Hash4(x, cur);
    ReadyParts(x, d, was, table, trees, cur, maxDepth, acceptLen, full, hash);
    hide AllArrive, AllPriced, Cheap, Forest, Covered, AllRelaxed, Kept, Rep, Ordered, Below, Untouched, Sought, Hash4, Rerooted, Falls,
      Ready, LookupHolds, Waits, Jumps, Quiet, RootTried;
    WaitsHere(x, cur, next0, acceptLen);
    var least := Rescale(cost, cur, |x|);
    CostsAside(x, d, View(cost, mpos, mlen));
    Unscaled(d, View(cost, mpos, mlen), |x|, cur, least);
    TryLiteral(cost, mpos, mlen, x, cur, FarFromOverflow(|x|));
    ghost var e := View(cost, mpos, mlen);
    next := if cur > next0 then cur else next0;
    var root := lookup[hash];
    lookup[hash] := cur;
    next := SearchTree(cost, mpos, mlen, nodes, x, cur, root, cur == next, next, maxDepth, acceptLen, FarFromOverflow(|x|), full, trees[hash]);
    WaitsNext(x, cur, next0, next, acceptLen);
    StepDone(x, d, e, View(cost, mpos, mlen), was, nodes[..], table, trees, cur, maxDepth, acceptLen, full, cur >= next0);
    trees' := trees[hash := Rerooted(x, Limit(|x|, cur, acceptLen), trees[hash], cur, maxDepth)];
  }

  lemma Unscaled(d: Table, e: Table, n: nat, cur: nat, least: nat)
    requires Sized(d, n) && e.mpos == d.mpos && e.mlen == d.mlen && |e.cost| == |d.cost|
    requires forall j :: 0 <= j < |d.cost| ==>
               e.cost[j] == if cur <= j <= n && d.cost[j] != INFINITE then d.cost[j] - least else d.cost[j]
    ensures least == 0 ==> e == d
  {
    if least == 0 {
      assert e.cost == d.cost;
    }
  }

  /** All arrays are different ones. */
  ghost predicate Apart(cost: array<nat>, mpos: array<nat>, mlen: array<nat>, nodes: array<nat>, lookup: array<nat>) {
    && Distinct(cost, mpos, mlen) && nodes != cost && nodes != mpos && nodes != mlen
    && lookup != cost && lookup != mpos && lookup != mlen && lookup != nodes
  }

  /** Position 0 is the only one in the trees, and nothing is reached but position 1. */
  method StartTables(cost: array<nat>, mpos: array<nat>, mlen: array<nat>, nodes: array<nat>, lookup: array<nat>, x: seq<Byte>,
                     maxDepth: nat, acceptLen: nat, ghost full: bool)
    returns (ghost trees: seq<Tree>)
    requires Apart(cost, mpos, mlen, nodes, lookup) && 4 <= |x| < NO_MATCH && lookup.Length == LOOKUP_SIZE && nodes.Length == 2 * |x|
    requires cost.Length == mpos.Length == mlen.Length == |x| + 1
    modifies cost, mlen, nodes, lookup
    ensures Ready(x, View(cost, mpos, mlen), nodes[..], lookup[..], trees, 1, maxDepth, acceptLen, full)
  {
    InitLookup(lookup);
    LookupEmpty(lookup[..], x);
    LookupNext(lookup[..], x, 0);
    lookup[Hash4(x, 0)] := 0;
    nodes[0] := NO_MATCH;
    nodes[1] := NO_MATCH;
    trees := seq(LOOKUP_SIZE, h => Leaf)[Hash4(x, 0) := Node(0, Leaf, Leaf)];
    InitCosts(cost, mlen);
    FirstForest(x, nodes[..], lookup[..], trees, Limit(|x|, 1, acceptLen));
    FirstTable(x, View(cost, mpos, mlen), maxDepth, acceptLen);
  }

  /** All literals, and nothing reached. */
  method InitCosts(cost: array<nat>, mlen: array<nat>)
    requires cost != mlen && cost.Length == mlen.Length >= 2
    modifies cost, mlen
    ensures cost[1] == FIRST_COST && forall k :: 2 <= k < cost.Length ==> cost[k] == INFINITE && mlen[k] == 1
  {
    var i := 0;
    while i < cost.Length
      invariant i <= cost.Length && forall k :: 0 <= k < i ==> cost[k] == INFINITE && mlen[k] == 1
    {
      cost[i] := INFINITE;
      mlen[i] := 1;
      i := i + 1;
    }
    cost[0] := 0;
    cost[1] := FIRST_COST;
  }

  lemma FirstForest(x: seq<Byte>, nodes: seq<nat>, lookup: seq<nat>, trees: seq<Tree>, m: nat)
    requires 4 <= |x| && |nodes| == 2 * |x| && |lookup| == LOOKUP_SIZE && nodes[0] == NO_MATCH && nodes[1] == NO_MATCH && m < |x|
    requires lookup[Hash4(x, 0)] == 0 && forall h :: 0 <= h < LOOKUP_SIZE && h != Hash4(x, 0) ==> lookup[h] == NO_MATCH
    requires trees == seq(LOOKUP_SIZE, h => Leaf)[Hash4(x, 0) := Node(0, Leaf, Leaf)]
    ensures Forest(x, m, nodes, lookup, trees, 1) && Covered(x, trees, 1)
  {
    var h0, t := Hash4(x, 0), Node(0, Leaf, Leaf);
    hide Hash4;
    assert Positions(t) == {0};
    assert Rep(nodes, 0, t) && Ordered(x, m, t);
    forall h | 0 <= h < LOOKUP_SIZE ensures TreeOk(x, m, nodes, lookup[h], trees[h], h, 1) {
      if h == h0 {
        assert Hashed(x, t, h0);
      } else {
        assert trees[h] == Leaf;
      }
    }
    assert Same(x, 0, 0, |x| - 1) && Covers(x, t, 0, |x| - 1);
  }

  lemma FirstTable(x: seq<Byte>, d: Table, maxDepth: nat, acceptLen: nat)
    requires Sized(d, |x|) && 4 <= |x| && d.cost[1] == FIRST_COST && forall k :: 2 <= k <= |x| ==> d.cost[k] == INFINITE && d.mlen[k] == 1
    ensures AllArrive(x, d) && AllPriced(x, d, 1) && Cheap(d, 1) && AllRelaxed(x, d, 1, maxDepth, acceptLen)
  {
    forall j | 2 <= j <= |x| ensures Arrives(x, d, j) {
      assert d.mlen[j] == 1;
    }
    forall j | 2 <= j <= |x| ensures Priced(x, d, j, 1) {
      assert Arrives(x, d, j) && d.cost[j] == INFINITE;
    }
  }

  // ---- Gathering the tokens ----

  /** Slots from s on hold tokens that start at cur: their lengths, and the offsets of matches. */
  ghost predicate SlotsHold(mpos: seq<nat>, mlen: seq<nat>, s: nat, cur: nat, ts: seq<Token>)
    decreases |ts|
  {
    && |mpos| == |mlen| && s + |ts| == |mlen|
    && (ts == [] ||
        (mlen[s] == Length(ts[0]) && (ts[0].Match? ==> ts[0].len >= 4 && ts[0].pos < cur && mpos[s] == cur - ts[0].pos - 1)
         && SlotsHold(mpos, mlen, s + 1, cur + Length(ts[0]), ts[1..])))
  }

  lemma {:induction false} SlotsFrame(mpos: seq<nat>, mlen: seq<nat>, mpos': seq<nat>, mlen': seq<nat>, s: nat, cur: nat, ts: seq<Token>)
    requires SlotsHold(mpos, mlen, s, cur, ts) && |mpos'| == |mpos| && |mlen'| == |mlen|
    requires forall k :: s <= k < |mlen| ==> mpos'[k] == mpos[k] && mlen'[k] == mlen[k]
    ensures SlotsHold(mpos', mlen', s, cur, ts)
    decreases |ts|
  {
    if ts != [] {
      SlotsFrame(mpos, mlen, mpos', mlen', s + 1, cur + Length(ts[0]), ts[1..]);
    }
  }

  /** Gathering: tokens of the way from cur to the end are in the last slots, the entries up to cur untouched. */
  ghost predicate Gathered(x: seq<Byte>, d: Table, mpos: seq<nat>, mlen: seq<nat>, cur: nat, s: nat, ts: seq<Token>) {
    && AllArrive(x, d) && 1 <= cur <= s <= |x| && |mpos| == |mlen| == |x| + 1
    && SlotsHold(mpos, mlen, s + 1, cur, ts) && BackTokens(x, d, cur) + ts == BackTokens(x, d, |x|)
    && forall j :: 0 <= j <= cur ==> mlen[j] == d.mlen[j] && mpos[j] == d.mpos[j]
  }

  lemma GatherOne(x: seq<Byte>, d: Table, mpos: seq<nat>, mlen: seq<nat>, cur: nat, s: nat, ts: seq<Token>)
    requires Gathered(x, d, mpos, mlen, cur, s, ts) && cur > 1
    ensures mlen[cur] < cur && mlen[cur] >= 1
    ensures Gathered(x, d, mpos[s := mpos[cur]], mlen[s := mlen[cur]], cur - mlen[cur], s - 1, [Arrival(d, cur)] + ts)
  {
    assert Arrives(x, d, cur);
    var t := Arrival(d, cur);
    var mpos', mlen' := mpos[s := mpos[cur]], mlen[s := mlen[cur]];
    SlotsFrame(mpos, mlen, mpos', mlen', s + 1, cur, ts);
    assert ([t] + ts)[1..] == ts;
    assert BackTokens(x, d, cur - d.mlen[cur]) + ([t] + ts) == BackTokens(x, d, cur - d.mlen[cur]) + [t] + ts;
  }

  /** Follows the table back from the end, moving the tokens met to the end of the arrays. */
  method Gather(mpos: array<nat>, mlen: array<nat>, x: seq<Byte>, ghost d: Table) returns (s: nat, ghost ts: seq<Token>)
    requires mpos != mlen && |x| >= 1 && AllArrive(x, d) && mpos[..] == d.mpos && mlen[..] == d.mlen
    modifies mpos, mlen
    ensures AllArrive(x, d) && ts == BackTokens(x, d, |x|) && SlotsHold(mpos[..], mlen[..], s + 1, 1, ts)
  {
    var cur: nat;
    cur, s := |x|, |x|;
    ts := [];
    assert BackTokens(x, d, cur) + ts == BackTokens(x, d, |x|);
    hide AllArrive, SlotsHold, BackTokens;
    SlotsNone(mpos[..], mlen[..], x, d);
    while cur > 1
      invariant Gathered(x, d, mpos[..], mlen[..], cur, s, ts)
      decreases cur
    {
      GatherOne(x, d, mpos[..], mlen[..], cur, s, ts);
      var t := Arrival(d, cur);
      var len := mlen[cur];
      mlen[s] := mlen[cur];
      mpos[s] := mpos[cur];
      cur := cur - len;
      s := s - 1;
      ts := [t] + ts;
    }
    NothingBefore(x, d);
    assert [] + ts == ts;
  }

  lemma SlotsNone(mpos: seq<nat>, mlen: seq<nat>, x: seq<Byte>, d: Table)
    requires AllArrive(x, d) && mpos == d.mpos && mlen == d.mlen
    ensures |mpos| == |mlen| == |x| + 1 && SlotsHold(mpos, mlen, |x| + 1, |x|, [])
  {
  }

  lemma NothingBefore(x: seq<Byte>, d: Table)
    requires AllArrive(x, d) && |x| >= 1
    ensures BackTokens(x, d, 1) == []
  {
  }

  // ---- Writing them ----

  /** Tokens up to cur are written, the rest stands in the slots. */
  ghost predicate Writing(p: Packed, x: seq<Byte>, mpos: seq<nat>, mlen: seq<nat>, i: nat, cur: nat, done: seq<Token>, rest: seq<Token>) {
    Written(p, x, done, cur) && Parses(x, cur, rest) && SlotsHold(mpos, mlen, i, cur, rest) && |mlen| == |x| + 1
  }

  lemma WriteNext(p: Packed, x: seq<Byte>, mpos: seq<nat>, mlen: seq<nat>, i: nat, cur: nat, done: seq<Token>, rest: seq<Token>)
    requires Writing(p, x, mpos, mlen, i, cur, done, rest) && i <= |x|
    ensures rest != [] && i < |mlen| && i < |mpos| && cur < |x| && Written(p, x, done, cur)
    ensures mlen[i] == 1 ==> rest[0] == Literal
    ensures mlen[i] != 1 ==> mpos[i] < cur && rest[0] == Match(cur - mpos[i] - 1, mlen[i]) && TrueMatch(x, cur, cur - mpos[i] - 1, mlen[i])
    ensures Parses(x, cur + mlen[i], rest[1..]) && SlotsHold(mpos, mlen, i + 1, cur + mlen[i], rest[1..])
  {
    hide Written, Parses, TrueMatch, SlotsHold, Fits, Events, TokenEvents;
    SlotsFirst(mpos, mlen, i, cur, rest);
    FirstToken(x, cur, rest);
    FitsMatch(x, cur, rest[0]);
  }

  lemma FitsMatch(x: seq<Byte>, cur: nat, t: Token)
    requires Fits(x, cur, t)
    ensures cur < |x| && (t.Match? ==> TrueMatch(x, cur, t.pos, t.len))
  {
  }

  lemma SlotsFirst(mpos: seq<nat>, mlen: seq<nat>, s: nat, cur: nat, ts: seq<Token>)
    requires SlotsHold(mpos, mlen, s, cur, ts) && s < |mlen|
    ensures ts != [] && |mpos| == |mlen| && mlen[s] == Length(ts[0])
    ensures ts[0].Match? ==> ts[0].len >= 4 && ts[0].pos < cur && mpos[s] == cur - ts[0].pos - 1
    ensures SlotsHold(mpos, mlen, s + 1, cur + mlen[s], ts[1..])
  {
  }

  lemma WriteDone(p: Packed, x: seq<Byte>, mpos: seq<nat>, mlen: seq<nat>, i: nat, cur: nat, done: seq<Token>, rest: seq<Token>)
    requires Writing(p, x, mpos, mlen, i, cur, done, rest) && i > |x|
    ensures rest == [] && Written(p, x, done, |x|)
  {
  }

  /** Writes the tokens in the slots. */
  method WriteSlots(bs: BlzState, mpos: array<nat>, mlen: array<nat>, x: seq<Byte>, s: nat, ghost ts: seq<Token>)
    requires bs.Valid() && mpos != mlen && Writing(bs.packed, x, mpos[..], mlen[..], s + 1, 1, [], ts)
    modifies bs
    ensures bs.Valid() && Written(bs.packed, x, ts, |x|)
  {
    ghost var done: seq<Token>, rest := [], ts;
    var i: nat, cur: nat := s + 1, 1;
    hide Writing, BlzState.Valid, Written;
    assert [] + ts == ts;
    while i <= |x|
      invariant bs.Valid() && Writing(bs.packed, x, mpos[..], mlen[..], i, cur, done, rest) && done + rest == ts
      decreases |x| + 1 - i
    {
      cur, done, rest := WriteSlot(bs, mpos, mlen, x, i, cur, done, rest);
      i := i + 1;
    }
    WriteDone(bs.packed, x, mpos[..], mlen[..], i, cur, done, rest);
    assert done + [] == done;
  }

  method WriteSlot(bs: BlzState, mpos: array<nat>, mlen: array<nat>, x: seq<Byte>, i: nat, cur: nat, ghost done: seq<Token>, ghost rest: seq<Token>)
    returns (cur': nat, ghost done': seq<Token>, ghost rest': seq<Token>)
    requires bs.Valid() && Writing(bs.packed, x, mpos[..], mlen[..], i, cur, done, rest) && i <= |x|
    modifies bs
    ensures bs.Valid() && Writing(bs.packed, x, mpos[..], mlen[..], i + 1, cur', done', rest') && done' + rest' == done + rest
  {
    hide *;
    WriteNext(bs.packed, x, mpos[..], mlen[..], i, cur, done, rest);
    SlotRoom(bs.packed, x, mpos[..], mlen[..], i, cur, done, rest);
    var len := mlen[i];
    if len == 1 {
      done' := WriteLiteral(bs, x, cur, done);
    } else {
      var offs := mpos[i];
      done' := WriteMatch(bs, x, cur, cur - offs - 1, len, done);
    }
    rest' := rest[1..];
    OneMoved(done, rest);
    cur' := cur + len;
    WriteMore(bs.packed, x, mpos[..], mlen[..], i + 1, cur', done', rest');
  }

  lemma OneMoved(done: seq<Token>, rest: seq<Token>)
    requires rest != []
    ensures done + [rest[0]] + rest[1..] == done + rest
  {
  }

  lemma WriteMore(p: Packed, x: seq<Byte>, mpos: seq<nat>, mlen: seq<nat>, i: nat, cur: nat, done: seq<Token>, rest: seq<Token>)
    requires Written(p, x, done, cur) && Parses(x, cur, rest) && SlotsHold(mpos, mlen, i, cur, rest) && |mlen| == |x| + 1
    ensures Writing(p, x, mpos, mlen, i, cur, done, rest)
  {
  }

  lemma SlotRoom(p: Packed, x: seq<Byte>, mpos: seq<nat>, mlen: seq<nat>, i: nat, cur: nat, done: seq<Token>, rest: seq<Token>)
    requires Writing(p, x, mpos, mlen, i, cur, done, rest)
    ensures |mlen| == |x| + 1 == |mpos|
  {
  }

  // ---- The whole ----

  /** The positions too near the end to match: literals. */
  method FinishTable(cost: array<nat>, mpos: array<nat>, mlen: array<nat>, x: seq<Byte>, cur0: nat, ghost maxDepth: nat, ghost acceptLen: nat)
    requires Distinct(cost, mpos, mlen) && 1 <= cur0 <= |x| && cur0 + 4 > |x|
    requires AllArrive(x, View(cost, mpos, mlen))
    requires FarFromOverflow(|x|) ==> AllPriced(x, View(cost, mpos, mlen), cur0) && Cheap(View(cost, mpos, mlen), cur0)
    requires FarFromOverflow(|x|) ==> AllRelaxed(x, View(cost, mpos, mlen), cur0, maxDepth, acceptLen)
    modifies cost, mlen
    ensures AllArrive(x, View(cost, mpos, mlen))
    ensures FarFromOverflow(|x|) ==> AllPriced(x, View(cost, mpos, mlen), |x|) && Cheap(View(cost, mpos, mlen), |x|)
    ensures FarFromOverflow(|x|) ==> AllRelaxed(x, View(cost, mpos, mlen), |x|, maxDepth, acceptLen)
  {
    hide AllArrive, AllPriced, Cheap, AllRelaxed, Falls, Kept;
    var cur := cur0;
    while cur < |x|
      invariant cur0 <= cur <= |x| && AllArrive(x, View(cost, mpos, mlen))
      invariant FarFromOverflow(|x|) ==> AllPriced(x, View(cost, mpos, mlen), cur) && Cheap(View(cost, mpos, mlen), cur)
      invariant FarFromOverflow(|x|) ==> AllRelaxed(x, View(cost, mpos, mlen), cur, maxDepth, acceptLen)
    {
      ghost var d := View(cost, mpos, mlen);
      ArriveSize(x, d);
      TryLiteral(cost, mpos, mlen, x, cur, FarFromOverflow(|x|));
      KeptSize(x, View(cost, mpos, mlen), cur, FarFromOverflow(|x|));
      KeptNext(x, View(cost, mpos, mlen), cur);
      if FarFromOverflow(|x|) {
        TooShort(x, View(cost, mpos, mlen), cur, maxDepth, acceptLen);
        RelaxedNext(x, d, View(cost, mpos, mlen), cur, maxDepth, acceptLen);
      }
      cur := cur + 1;
    }
  }

  lemma TooShort(x: seq<Byte>, d: Table, cur: nat, maxDepth: nat, acceptLen: nat)
    requires Sized(d, |x|) && cur < |x| && cur + 4 > |x| && d.cost[cur + 1] <= d.cost[cur] + LITERAL_COST
    ensures Relaxed(x, d, cur, maxDepth, acceptLen)
  {
  }

  /** The table of the whole input. */
  method FillTable(cost: array<nat>, mpos: array<nat>, mlen: array<nat>, nodes: array<nat>, lookup: array<nat>, x: seq<Byte>,
                   maxDepth: nat, acceptLen: nat)
    requires Apart(cost, mpos, mlen, nodes, lookup) && 4 <= |x| < NO_MATCH && lookup.Length == LOOKUP_SIZE && nodes.Length == 2 * |x|
    requires cost.Length == mpos.Length == mlen.Length == |x| + 1
    modifies cost, mpos, mlen, nodes, lookup
    ensures AllArrive(x, View(cost, mpos, mlen))
    ensures FarFromOverflow(|x|) ==> AllPriced(x, View(cost, mpos, mlen), |x|) && Cheap(View(cost, mpos, mlen), |x|)
    ensures FarFromOverflow(|x|) ==> AllRelaxed(x, View(cost, mpos, mlen), |x|, maxDepth, acceptLen)
  {
    ghost var full := maxDepth >= |x| && acceptLen >= |x|;
    ghost var trees := StartTables(cost, mpos, mlen, nodes, lookup, x, maxDepth, acceptLen, full);
    var cur: nat, next: nat := 1, 1;
    hide Ready, AllArrive, AllPriced, Cheap, AllRelaxed, Quiet;
    while cur <= LastMatchPos(|x|)
      invariant 1 <= cur <= LastMatchPos(|x|) + 1 || (cur == 1 && LastMatchPos(|x|) == 0)
      invariant Ready(x, View(cost, mpos, mlen), nodes[..], lookup[..], trees, cur, maxDepth, acceptLen, full)
      invariant (full ==> next <= cur) && Waits(x, cur, next, acceptLen)
    {
      next, trees := StepAt(cost, mpos, mlen, nodes, lookup, x, cur, next, maxDepth, acceptLen, trees, full);
      cur := cur + 1;
    }
    ReadyParts(x, View(cost, mpos, mlen), nodes[..], lookup[..], trees, cur, maxDepth, acceptLen, full, 0);
    FinishTable(cost, mpos, mlen, x, cur, maxDepth, acceptLen);
  }

  /** No tokens that spell x from its second byte on cost less. */
  ghost predicate Cheapest(x: seq<Byte>, ts: seq<Token>)
    requires Parses(x, 1, ts)
  {
    forall other :: Parses(x, 1, other) ==> ParseCost(x, 1, ts) <= ParseCost(x, 1, other)
  }

  /** No tokens that spell x from its second byte on cost less, if all their matches are tried. */
  ghost predicate CheapestOffered(x: seq<Byte>, ts: seq<Token>, maxDepth: nat, acceptLen: nat)
    requires Parses(x, 1, ts)
  {
    forall other :: Parses(x, 1, other) && AllOffered(x, 1, other, maxDepth, acceptLen) ==> ParseCost(x, 1, ts) <= ParseCost(x, 1, other)
  }

  lemma UnlimitedCheapest(x: seq<Byte>, ts: seq<Token>, maxDepth: nat, acceptLen: nat)
    requires Parses(x, 1, ts) && CheapestOffered(x, ts, maxDepth, acceptLen) && maxDepth >= |x| && acceptLen >= |x|
    ensures Cheapest(x, ts)
  {
    forall other | Parses(x, 1, other) ensures ParseCost(x, 1, ts) <= ParseCost(x, 1, other) {
      NoLimits(x, 1, other, maxDepth, acceptLen);
    }
  }

  /** With costs far from the end of a word, the parse is a cheapest one of those whose matches are tried. */
  lemma BackIsCheapestOffered(x: seq<Byte>, d: Table, maxDepth: nat, acceptLen: nat)
    requires |x| >= 1 && AllArrive(x, d) && AllPriced(x, d, |x|) && Cheap(d, |x|) && FarFromOverflow(|x|)
    requires AllRelaxed(x, d, |x|, maxDepth, acceptLen)
    ensures Parses(x, 1, BackTokens(x, d, |x|)) && CheapestOffered(x, BackTokens(x, d, |x|), maxDepth, acceptLen)
  {
    hide AllArrive, AllPriced, Cheap, AllRelaxed, AllOffered;
    BackSpells(x, d);
    forall other | Parses(x, 1, other) && AllOffered(x, 1, other, maxDepth, acceptLen)
      ensures ParseCost(x, 1, BackTokens(x, d, |x|)) <= ParseCost(x, 1, other)
    {
      BackIsCheapest(x, d, other, maxDepth, acceptLen);
    }
  }

  /** At any depth the parse costs no more than literals alone. */
  lemma BackFits(x: seq<Byte>, d: Table)
    requires |x| > 1 && AllArrive(x, d) && AllPriced(x, d, |x|) && Cheap(d, |x|) && FarFromOverflow(|x|)
    ensures Parses(x, 1, BackTokens(x, d, |x|)) && ParseCost(x, 1, BackTokens(x, d, |x|)) <= LITERAL_COST * (|x| - 1)
  {
    hide AllArrive, AllPriced, Reaches, ReachCost, Parses, ParseCost;
    var ts := BackTokens(x, d, |x|);
    BackCosts(x, d, |x|, |x|);
    NoneLeft(x);
    ReachThenParse(x, 1, ts, |x|, []);
    assert ts + [] == ts;
  }

  lemma NoneLeft(x: seq<Byte>)
    ensures Parses(x, |x|, []) && ParseCost(x, |x|, []) == 0
  {
  }

  lemma BackSpells(x: seq<Byte>, d: Table)
    requires |x| >= 1 && AllArrive(x, d)
    ensures Parses(x, 1, BackTokens(x, d, |x|))
  {
    var ts := BackTokens(x, d, |x|);
    BackReaches(x, d, |x|);
    ReachThenParse(x, 1, ts, |x|, []);
    assert ts + [] == ts;
  }

  /** Literals only are the only parse there is of so short an input. */
  lemma ShortCheapest(x: seq<Byte>, ts: seq<Token>)
    requires 1 < |x| < 4 && Parses(x, 1, ts)
    ensures forall other :: Parses(x, 1, other) ==> ParseCost(x, 1, ts) <= ParseCost(x, 1, other)
  {
    ShortCost(x, 1, ts);
    forall other | Parses(x, 1, other) ensures ParseCost(x, 1, ts) <= ParseCost(x, 1, other) {
      ShortCost(x, 1, other);
    }
  }

  /**
   * Packs x by the forwards parse. The result spells x and, while costs fit a word, keeps to the published
   * bound. No parse is cheaper whose matches are tried: at positions outside matches of the accepted length,
   * that with the last position of the same hash; with depth and accepted length unlimited, every match there is.
   */
  method PackBtparse(x: seq<Byte>, maxDepth: nat, acceptLen: nat) returns (out: seq<Byte>, ghost ts: seq<Token>)
    requires |x| < NO_MATCH
    ensures |x| > 1 ==> Parses(x, 1, ts)
    ensures out == PackedBytes(x, ts)
    ensures |x| > 1 && FarFromOverflow(|x|) ==> CheapestOffered(x, ts, maxDepth, acceptLen)
    ensures |x| > 1 && FarFromOverflow(|x|) && maxDepth >= |x| && acceptLen >= |x| ==> Cheapest(x, ts)
    ensures FarFromOverflow(|x|) ==> |out| <= |x| + |x| / 8 + 64
  {
    ts := [];
    if |x| == 0 { return [], ts; }
    if |x| == 1 { return [x[0]], ts; }
    if |x| < 4 {
      out, ts := PackShort(x);
      ShortCheapest(x, ts);
      PackedFits(x, ts);
      return;
    }
    out, ts := ParseForwards(x, maxDepth, acceptLen);
    if FarFromOverflow(|x|) && maxDepth >= |x| && acceptLen >= |x| {
      UnlimitedCheapest(x, ts, maxDepth, acceptLen);
    }
  }

  /** What the tokens of a filled table come to. */
  lemma BackGives(x: seq<Byte>, d: Table, maxDepth: nat, acceptLen: nat)
    requires |x| > 1 && AllArrive(x, d)
    requires FarFromOverflow(|x|) ==> AllPriced(x, d, |x|) && Cheap(d, |x|) && AllRelaxed(x, d, |x|, maxDepth, acceptLen)
    ensures Parses(x, 1, BackTokens(x, d, |x|))
    ensures FarFromOverflow(|x|) ==> CheapestOffered(x, BackTokens(x, d, |x|), maxDepth, acceptLen)
    ensures FarFromOverflow(|x|) ==> |PackedBytes(x, BackTokens(x, d, |x|))| <= |x| + |x| / 8 + 64
  {
    hide AllArrive, AllPriced, Cheap, AllRelaxed, Parses, PackedBytes, ParseCost, CheapestOffered, BackTokens;
    BackSpells(x, d);
    if FarFromOverflow(|x|) {
      BackFits(x, d);
      PackedFits(x, BackTokens(x, d, |x|));
      BackIsCheapestOffered(x, d, maxDepth, acceptLen);
    }
  }

  method ParseForwards(x: seq<Byte>, maxDepth: nat, acceptLen: nat) returns (out: seq<Byte>, ghost ts: seq<Token>)
    requires 4 <= |x| < NO_MATCH
    ensures Parses(x, 1, ts) && out == PackedBytes(x, ts)
    ensures FarFromOverflow(|x|) ==> CheapestOffered(x, ts, maxDepth, acceptLen)
    ensures FarFromOverflow(|x|) ==> |out| <= |x| + |x| / 8 + 64
  {
    var n := |x|;
    var cost, mpos, mlen := new nat[n + 1](_ => 0), new nat[n + 1](_ => 0), new nat[n + 1](_ => 0);
    var nodes, lookup := new nat[2 * n](_ => 0), new nat[LOOKUP_SIZE](_ => 0);
    FillTable(cost, mpos, mlen, nodes, lookup, x, maxDepth, acceptLen);
    ghost var d := View(cost, mpos, mlen);
    hide AllArrive, AllPriced, Cheap, AllRelaxed, Parses, PackedBytes, ParseCost, Written, SlotsHold, BlzState.Valid, Start,
      CheapestOffered, BackTokens;
    BackGives(x, d, maxDepth, acceptLen);
    ghost var back := BackTokens(x, d, n);
    var s;
    s, ts := Gather(mpos, mlen, x, d);
    var bs := new BlzState(x[0]);
    WrittenStart(x);
    WriteMore(bs.packed, x, mpos[..], mlen[..], s + 1, 1, [], ts);
    WriteSlots(bs, mpos, mlen, x, s, ts);
    WrittenAll(bs.packed, x, ts);
    out := bs.Finalize();
  }
}
