/** The scans of the main sort: once a big bucket is sorted but for its middle, all buckets [t, c] follow. */
module MainScan {
  import opened Permutations
  import opened Rotations
  import opened SegmentSort
  import opened MainSimple
  import opened MainBuckets
  import opened MainWalk
  import opened MainCopy

  /** Bucket v is sorted. */
  ghost predicate InOrder(b: seq<Byte>, s: seq<nat>, v: nat) {
    InRange(s, |b|) && forall k, l :: In(b, v, k) && In(b, v, l) && 0 <= k < l < |s| ==> Keys(b)[s[k]] <= Keys(b)[s[l]]
  }

  lemma InPairsAt(b: seq<Byte>, s: seq<nat>, k: nat)
    requires InPairs(b, s) && k < |s|
    ensures |s| == |b| && s[k] < |b| && In(b, Pairs(b)[s[k]], k)
    ensures Pairs(b)[s[k]] == Pair(b[s[k]], b[Next(|b|, s[k])]) < PAIRS
  {
    PairAt(b, s[k]);
  }

  /** The place of a rotation. */
  lemma PlaceOf(b: seq<Byte>, s: seq<nat>, p: nat) returns (k: nat)
    requires InPairs(b, s) && p < |b|
    ensures k < |s| && s[k] == p
  {
    k := PermutationHits(s, |b|, p);
  }

  /** Two places of a range of buckets, and the order of what stands there. */
  lemma RangeOrder(b: seq<Byte>, s: seq<nat>, k: nat, l: nat)
    requires InPairs(b, s) && k < l < |s| && InOrder(b, s, Pairs(b)[s[k]])
    ensures |s| == |b| && s[k] < |b| && s[l] < |b| && s[k] != s[l] && Keys(b)[s[k]] <= Keys(b)[s[l]]
  {
    hide Key, Pairs, Start;
    InPairsAt(b, s, k);
    InPairsAt(b, s, l);
    PermutationFacts(s, |b|);
    var v, w := Pairs(b)[s[k]], Pairs(b)[s[l]];
    InOne(b, w, v, l);
    if v != w {
      PairsDecide(b, s[k], s[l]);
    }
  }

  lemma PairsDecide(b: seq<Byte>, p: nat, q: nat)
    requires p < |b| && q < |b| && |b| >= 2 && Pairs(b)[p] < Pairs(b)[q]
    ensures Keys(b)[p] <= Keys(b)[q]
  {
    KeyOrder(b, p, q, 2, |b| - 2);
  }

  /** All buckets [c, t] but the middle one are sorted. */
  ghost predicate ButMiddle(b: seq<Byte>, s: seq<nat>, c: nat) {
    forall t :: 0 <= t < 256 && t != c ==> InOrder(b, s, Pair(c, t))
  }

  lemma ButMiddleAt(b: seq<Byte>, s: seq<nat>, c: nat, t: nat)
    requires ButMiddle(b, s, c) && t < 256 && t != c
    ensures InOrder(b, s, Pair(c, t))
  {
  }

  // ---- The part of a big bucket before its middle ----

  ghost function LowPart(b: seq<Byte>, s: seq<nat>, c: nat): (x: seq<nat>)
    requires Start(b, Pair(c, 0)) <= Start(b, Pair(c, c)) <= |s|
    ensures |x| == Start(b, Pair(c, c)) - Start(b, Pair(c, 0))
    ensures forall i :: 0 <= i < |x| ==> x[i] == s[Start(b, Pair(c, 0)) + i]
  {
    s[Start(b, Pair(c, 0))..Start(b, Pair(c, c))]
  }

  ghost function HighPart(b: seq<Byte>, s: seq<nat>, c: nat): (x: seq<nat>)
    requires Start(b, Pair(c, c) + 1) <= Start(b, Pair(c + 1, 0)) <= |s|
    ensures |x| == Start(b, Pair(c + 1, 0)) - Start(b, Pair(c, c) + 1)
    ensures forall i :: 0 <= i < |x| ==> x[i] == s[Start(b, Pair(c + 1, 0)) - 1 - i]
  {
    var n: nat := Start(b, Pair(c + 1, 0)) - Start(b, Pair(c, c) + 1);
    seq(n, i requires 0 <= i < n => s[Start(b, Pair(c + 1, 0)) - 1 - i])
  }

  /** The bounds of a big bucket and of its middle. */
  lemma BigBounds(b: seq<Byte>, c: nat)
    requires c < 256
    ensures Start(b, Pair(c, 0)) <= Start(b, Pair(c, c)) <= Start(b, Pair(c, c) + 1) <= Start(b, Pair(c + 1, 0)) <= |b|
  {
    StartMonotone(b, Pair(c, 0), Pair(c, c));
    StartMonotone(b, Pair(c, c), Pair(c, c) + 1);
    StartMonotone(b, Pair(c, c) + 1, Pair(c + 1, 0));
    StartEnds(b, Pair(c + 1, 0));
  }

  /** Places before the middle hold rotations that fall at once. */
  lemma LowAt(b: seq<Byte>, s: seq<nat>, c: nat, k: nat)
    requires InPairs(b, s) && c < 256 && k < |s|
    ensures |s| == |b| && s[k] < |b|
    ensures Start(b, Pair(c, 0)) <= k < Start(b, Pair(c, c)) <==> b[s[k]] == c && b[Next(|b|, s[k])] < c
  {
    hide InPairs, Pairs, Start;
    InPairsAt(b, s, k);
    var v := Pairs(b)[s[k]];
    InOne(b, v, Pair(c, 0), k);
    InOne(b, v, Pair(c, c), k);
  }

  lemma HighAt(b: seq<Byte>, s: seq<nat>, c: nat, k: nat)
    requires InPairs(b, s) && c < 256 && k < |s|
    ensures |s| == |b| && s[k] < |b|
    ensures Start(b, Pair(c, c) + 1) <= k < Start(b, Pair(c + 1, 0)) <==> b[s[k]] == c && b[Next(|b|, s[k])] > c
  {
    hide InPairs, Pairs, Start;
    InPairsAt(b, s, k);
    var v := Pairs(b)[s[k]];
    InOne(b, v, Pair(c, c) + 1, k);
    InOne(b, v, Pair(c + 1, 0), k);
  }

  lemma LowInOrder(b: seq<Byte>, s: seq<nat>, c: nat, k: nat, l: nat)
    requires InPairs(b, s) && c < 256 && ButMiddle(b, s, c) && k < l < |s|
    requires (Start(b, Pair(c, 0)) <= k && l < Start(b, Pair(c, c))) || (Start(b, Pair(c, c) + 1) <= k && l < Start(b, Pair(c + 1, 0)))
    ensures |s| == |b| && s[k] < |b| && s[l] < |b| && s[k] != s[l] && Keys(b)[s[k]] <= Keys(b)[s[l]]
  {
    hide Key, Pairs, Start, InPairs, InOrder, Keys, ButMiddle;
    LowAt(b, s, c, k);
    HighAt(b, s, c, k);
    InPairsAt(b, s, k);
    ButMiddleAt(b, s, c, b[Next(|b|, s[k])]);
    RangeOrder(b, s, k, l);
  }

  lemma LowFirsts(b: seq<Byte>, s: seq<nat>, c: nat)
    requires InPairs(b, s) && c < 256 && ButMiddle(b, s, c)
    ensures Start(b, Pair(c, 0)) <= Start(b, Pair(c, c)) <= |s| == |b| && Firsts(b, Keys(b), c, LowPart(b, s, c))
  {
    hide Key, Pairs, Start, InPairs, InOrder, Keys, ButMiddle, Falls;
    BigBounds(b, c);
    InPairsLength(b, s);
    var x, from := LowPart(b, s, c), Start(b, Pair(c, 0));
    forall i | 0 <= i < |x| ensures x[i] < |b| && b[x[i]] == c && Falls(b, Keys(b), x[i]) && b[Next(|b|, x[i])] != c {
      LowAt(b, s, c, from + i);
      FallsAtOnce(b, x[i]);
    }
    forall i, j | 0 <= i < j < |x| ensures x[i] != x[j] && Keys(b)[x[i]] <= Keys(b)[x[j]] {
      LowInOrder(b, s, c, from + i, from + j);
    }
    forall p | 0 <= p < |b| && b[p] == c && b[Next(|b|, p)] != c && Falls(b, Keys(b), p) ensures p in x {
      FallsAtOnce(b, p);
      var k := PlaceOf(b, s, p);
      LowAt(b, s, c, k);
      assert x[k - from] == p;
    }
  }

  lemma HighFirsts(b: seq<Byte>, s: seq<nat>, c: nat)
    requires InPairs(b, s) && c < 256 && ButMiddle(b, s, c)
    ensures Start(b, Pair(c, c) + 1) <= Start(b, Pair(c + 1, 0)) <= |s| == |b| && Firsts(b, Down(b), c, HighPart(b, s, c))
  {
    hide Key, Pairs, Start, InPairs, InOrder, Keys, ButMiddle, Falls;
    BigBounds(b, c);
    InPairsLength(b, s);
    var x, last := HighPart(b, s, c), Start(b, Pair(c + 1, 0)) - 1;
    forall i | 0 <= i < |x| ensures x[i] < |b| && b[x[i]] == c && Falls(b, Down(b), x[i]) && b[Next(|b|, x[i])] != c {
      HighAt(b, s, c, last - i);
      FallsAtOnce(b, x[i]);
    }
    forall i, j | 0 <= i < j < |x| ensures x[i] != x[j] && Down(b)[x[i]] <= Down(b)[x[j]] {
      LowInOrder(b, s, c, last - j, last - i);
    }
    forall p | 0 <= p < |b| && b[p] == c && b[Next(|b|, p)] != c && Falls(b, Down(b), p) ensures p in x {
      FallsAtOnce(b, p);
      var k := PlaceOf(b, s, p);
      HighAt(b, s, c, k);
      assert x[last - k] == p;
    }
  }

  lemma InPairsLength(b: seq<Byte>, s: seq<nat>)
    requires InPairs(b, s)
    ensures |s| == |b| && InRange(s, |b|)
  {
  }

  // ---- A block of one character only ----

  lemma {:induction false} AlikeFrom(b: seq<Byte>, p: nat, m: nat)
    requires p < |b| && m < |b| && Keys(b)[p] == Keys(b)[Next(|b|, p)]
    ensures var q := Advance(|b|, p, m); Keys(b)[q] == Keys(b)[p] == Keys(b)[Next(|b|, q)] && b[q] == b[p]
  {
    hide Key;
    if m > 0 {
      AlikeFrom(b, p, m - 1);
      var q := Advance(|b|, p, m - 1);
      var r := Next(|b|, q);
      assert r == Advance(|b|, p, m);
      KeyHead(b, q, r, |b|);
      KeysStep(b, q, r);
      KeysStep(b, r, q);
    }
  }

  /** If a rotation equals the one a step further on, all rotations are equal. */
  lemma AllAlike(b: seq<Byte>, p: nat, q: nat)
    requires p < |b| && q < |b| && Keys(b)[p] == Keys(b)[Next(|b|, p)]
    ensures Keys(b)[q] == Keys(b)[p] == Keys(b)[Next(|b|, q)] && b[q] == b[p]
  {
    AlikeFrom(b, p, if q >= p then q - p else q + |b| - p);
  }

  // ---- When both scans are over ----

  /** Every rotation that starts with c is different from the one a step further on. */
  ghost predicate Tells(b: seq<Byte>, c: nat) {
    forall p :: 0 <= p < |b| && b[p] == c ==> Keys(b)[p] != Keys(b)[Next(|b|, p)]
  }

  /** What holds when both scans have read all they listed. */
  ghost predicate Scanned(b: seq<Byte>, s0: seq<nat>, s: seq<nat>, c: nat, done: seq<bool>, starts: seq<int>, ends: seq<int>,
                          xl: seq<nat>, low: seq<nat>, xh: seq<nat>, high: seq<nat>) {
    && Ranking(b, Keys(b)) && Ranking(b, Down(b)) && Firsts(b, Keys(b), c, xl) && Firsts(b, Down(b), c, xh)
    && Walking(b, Keys(b), c, xl, low, |low|) && Righting(b, s0, s, c, done, starts, ends, low, xh, high, |high|)
  }

  /** The rotations in a bucket [t, c] are those a step behind the two lists. */
  lemma BucketHas(b: seq<Byte>, c: nat, xl: seq<nat>, low: seq<nat>, xh: seq<nat>, high: seq<nat>, t: nat, p: nat)
    requires Ranking(b, Keys(b)) && Ranking(b, Down(b)) && Firsts(b, Keys(b), c, xl) && Firsts(b, Down(b), c, xh)
    requires Walking(b, Keys(b), c, xl, low, |low|) && Walking(b, Down(b), c, xh, high, |high|)
    requires Tells(b, c) && p < |b| && Pairs(b)[p] == Pair(t, c) && t < 256 && c < 256
    ensures InRange(low, |b|) && InRange(high, |b|) && (p in Behind(b, low, t) || p in Behind(b, high, t))
  {
    hide Key, Ranking, Firsts, Walking, Behind;
    PairAt(b, p);
    var q := Next(|b|, p);
    assert b[q] == c && b[p] == t && Prev(|b|, q) == p;
    WalkingFacts(b, Keys(b), c, xl, low, |low|);
    WalkingFacts(b, Down(b), c, xh, high, |high|);
    if Falls(b, Keys(b), q) {
      WalkEnds(b, Keys(b), c, xl, low, q);
      var k :| 0 <= k < |low| && low[k] == q;
      BehindHas(b, low, t, k);
    } else {
      WalkEnds(b, Down(b), c, xh, high, q);
      var k :| 0 <= k < |high| && high[k] == q;
      BehindHas(b, high, t, k);
    }
  }

  /** The two lists fill the bucket. */
  lemma BucketFull(b: seq<Byte>, c: nat, xl: seq<nat>, low: seq<nat>, xh: seq<nat>, high: seq<nat>, t: nat)
    requires Ranking(b, Keys(b)) && Ranking(b, Down(b)) && Firsts(b, Keys(b), c, xl) && Firsts(b, Down(b), c, xh)
    requires Walking(b, Keys(b), c, xl, low, |low|) && Walking(b, Down(b), c, xh, high, |high|)
    requires Tells(b, c) && t < 256 && c < 256
    ensures InRange(low, |b|) && InRange(high, |b|)
    ensures OfPair(b, Pair(t, c), Behind(b, low, t) + Behind(b, high, t))
    ensures |Behind(b, low, t)| + |Behind(b, high, t)| == Start(b, Pair(t, c) + 1) - Start(b, Pair(t, c))
  {
    hide Key, Keys, Down, Ranking, Firsts, Walking, Behind, OfPair, Start, Pairs, Tells;
    assert high[..|high|] == high;
    BothOfPair(b, c, xl, low, xh, high, |high|, |high|, t);
    var q, r := Behind(b, low, t), Behind(b, high, t);
    forall p | 0 <= p < |b| && Pairs(b)[p] == Pair(t, c) ensures p in q + r {
      BucketHas(b, c, xl, low, xh, high, t, p);
    }
    PairFull(b, Pair(t, c), q + r);
  }

  /** Of two places in a filled bucket the first holds the lower rotation. */
  lemma BucketOrder(b: seq<Byte>, c: nat, xl: seq<nat>, low: seq<nat>, xh: seq<nat>, high: seq<nat>, t: nat, p: nat, q: nat)
    requires Ranking(b, Keys(b)) && Walking(b, Keys(b), c, xl, low, |low|) && Walking(b, Down(b), c, xh, high, |high|)
    requires InRange(low, |b|) && InRange(high, |b|) && p in Behind(b, low, t) && q in Behind(b, high, t)
    ensures p < |b| && q < |b| && Keys(b)[p] <= Keys(b)[q]
  {
    hide Key, Ranking, Behind;
    var i :| 0 <= i < |Behind(b, low, t)| && Behind(b, low, t)[i] == p;
    var j :| 0 <= j < |Behind(b, high, t)| && Behind(b, high, t)[j] == q;
    var k := BehindAt(b, low, t, i);
    var l := BehindAt(b, high, t, j);
    assert Next(|b|, p) == low[k] && Next(|b|, q) == high[l];
    RankingAt(b, Keys(b), p, q);
    LowBeforeHigh(b, low[k], high[l]);
  }

  /** Of rotations with the same first character, one that falls precedes one that rises. */
  lemma LowBeforeHigh(b: seq<Byte>, p: nat, q: nat)
    requires p < |b| && q < |b| && b[p] == b[q] && Falls(b, Keys(b), p) && Falls(b, Down(b), q)
    ensures Keys(b)[p] <= Keys(b)[q]
  {
    hide Key;
    KeyShift(b, p);
    KeyShift(b, q);
  }

  // ---- What the scans leave ----

  /** Bucket v holds different rotations with its pair, in order. */
  ghost predicate Finished(b: seq<Byte>, s: seq<nat>, v: nat) {
    && (forall k :: 0 <= k < |s| && In(b, v, k) ==> s[k] < |b| && Pairs(b)[s[k]] == v)
    && forall k, l :: 0 <= k < l < |s| && In(b, v, k) && In(b, v, l) ==> s[k] != s[l] && Keys(b)[s[k]] <= Keys(b)[s[l]]
  }

  /** A bucket that a list fills from the left and another from the right. */
  ghost predicate Fills(b: seq<Byte>, s: seq<nat>, v: nat, q: seq<nat>, r: seq<nat>) {
    && Rightwards(s, Start(b, v), q) && Leftwards(s, Start(b, v + 1), r) && |q| + |r| == Start(b, v + 1) - Start(b, v)
  }

  lemma FilledAt(b: seq<Byte>, s: seq<nat>, v: nat, q: seq<nat>, r: seq<nat>, k: nat)
    requires Fills(b, s, v, q, r) && In(b, v, k)
    ensures k < |s| && if k - Start(b, v) < |q| then s[k] == q[k - Start(b, v)] else s[k] == r[Start(b, v + 1) - 1 - k]
  {
    hide Start;
    if k - Start(b, v) < |q| {
      assert s[Start(b, v) + (k - Start(b, v))] == q[k - Start(b, v)];
    } else {
      assert s[Start(b, v + 1) - 1 - (Start(b, v + 1) - 1 - k)] == r[Start(b, v + 1) - 1 - k];
    }
  }

  lemma FilledFinished(b: seq<Byte>, s: seq<nat>, v: nat, q: seq<nat>, r: seq<nat>)
    requires Fills(b, s, v, q, r) && OfPair(b, v, q + r) && InRange(q, |b|) && InRange(r, |b|)
    requires Ascends(Keys(b), q) && Ascends(Down(b), r)
    requires forall p, p' :: p in q && p' in r ==> p < |b| && p' < |b| && Keys(b)[p] <= Keys(b)[p']
    ensures Finished(b, s, v)
  {
    hide Key, Pairs, Start, Fills;
    var from, last := Start(b, v), Start(b, v + 1) - 1;
    forall k: nat | k < |s| && In(b, v, k) ensures s[k] < |b| && Pairs(b)[s[k]] == v && s[k] in q + r {
      FilledAt(b, s, v, q, r, k);
      FillsSizes(b, s, v, q, r);
      assert s[k] == (q + r)[if k - from < |q| then k - from else |q| + (last - k)];
    }
    forall k: nat, l: nat | k < l < |s| && In(b, v, k) && In(b, v, l) ensures s[k] != s[l] && Keys(b)[s[k]] <= Keys(b)[s[l]] {
      FilledAt(b, s, v, q, r, k);
      FilledAt(b, s, v, q, r, l);
      FillsSizes(b, s, v, q, r);
      FilledTwo(b, q, r, v, k - from, l - from, last - from + 1);
    }
  }

  lemma FillsSizes(b: seq<Byte>, s: seq<nat>, v: nat, q: seq<nat>, r: seq<nat>)
    requires Fills(b, s, v, q, r)
    ensures |q| + |r| == Start(b, v + 1) - Start(b, v)
  {
  }

  /** What stands at place i of n that q fills from the left and r from the right. */
  ghost function FillAt(q: seq<nat>, r: seq<nat>, i: nat, n: nat): nat
    requires i < n == |q| + |r|
  {
    if i < |q| then q[i] else r[n - 1 - i]
  }

  lemma FilledTwo(b: seq<Byte>, q: seq<nat>, r: seq<nat>, v: nat, i: nat, j: nat, n: nat)
    requires i < j < n == |q| + |r| && OfPair(b, v, q + r) && InRange(q, |b|) && InRange(r, |b|)
    requires Ascends(Keys(b), q) && Ascends(Down(b), r)
    requires forall p, p' :: p in q && p' in r ==> p < |b| && p' < |b| && Keys(b)[p] <= Keys(b)[p']
    ensures var p, p' := FillAt(q, r, i, n), FillAt(q, r, j, n); p < |b| && p' < |b| && p != p' && Keys(b)[p] <= Keys(b)[p']
  {
    hide Key, Pairs;
    var s := q + r;
    var x, y := if i < |q| then i else |q| + (n - 1 - i), if j < |q| then j else |q| + (n - 1 - j);
    assert s[x] == FillAt(q, r, i, n) && s[y] == FillAt(q, r, j, n);
    assert s[x] != s[y] by {
      assert x < y || y < x;
    }
  }

  lemma BucketFinished(b: seq<Byte>, s0: seq<nat>, s: seq<nat>, c: nat, done: seq<bool>, starts: seq<int>, ends: seq<int>,
                       xl: seq<nat>, low: seq<nat>, xh: seq<nat>, high: seq<nat>, t: nat)
    requires Scanned(b, s0, s, c, done, starts, ends, xl, low, xh, high) && Tells(b, c) && t < 256 && c < 256 && |done| == 256 && !done[t]
    ensures Finished(b, s, Pair(t, c)) && |starts| == |ends| == 256 && starts[t] - 1 == ends[t]
  {
    hide Key, Keys, Down, Ranking, Firsts, Walking, Behind, OfPair, Start, Pairs, Tells, Ascends, Finished;
    var v, q, r := Pair(t, c), Behind(b, low, t), Behind(b, high, t);
    BucketFull(b, c, xl, low, xh, high, t);
    assert low[..|low|] == low && high[..|high|] == high;
    LeftsAt(b, s, c, done, starts, low, |low|, t);
    RightsAt(b, s, c, done, ends, high, |high|, t);
    BehindOfPair(b, Keys(b), c, xl, low, |low|, |low|, t);
    BehindOfPair(b, Down(b), c, xh, high, |high|, |high|, t);
    forall p, p' | p in q && p' in r ensures p < |b| && p' < |b| && Keys(b)[p] <= Keys(b)[p'] {
      BucketOrder(b, c, xl, low, xh, high, t, p, p');
    }
    OfPairRange(b, v, q);
    OfPairRange(b, v, r);
    FilledFinished(b, s, v, q, r);
  }

  lemma OfPairRange(b: seq<Byte>, v: nat, s: seq<nat>)
    requires OfPair(b, v, s)
    ensures InRange(s, |b|)
  {
  }

  /** If nothing tells a rotation from the next, nothing has been listed or moved. */
  lemma NothingTold(b: seq<Byte>, s0: seq<nat>, s: seq<nat>, c: nat, done: seq<bool>, starts: seq<int>, ends: seq<int>,
                    xl: seq<nat>, low: seq<nat>, xh: seq<nat>, high: seq<nat>)
    requires Scanned(b, s0, s, c, done, starts, ends, xl, low, xh, high) && !Tells(b, c) && InPairs(b, s0)
    requires c < 256 && |done| == 256 && !done[c]
    ensures s == s0 && |starts| == |ends| == 256 && starts[c] == 0 && ends[c] == |b| - 1
    ensures forall p, q :: 0 <= p < |b| && 0 <= q < |b| ==> Keys(b)[p] == Keys(b)[q]
  {
    hide Key, Keys, Ranking, Firsts, Start, Pairs, InPairs;
    var p :| 0 <= p < |b| && b[p] == c && Keys(b)[p] == Keys(b)[Next(|b|, p)];
    forall q | 0 <= q < |b| ensures Keys(b)[q] == Keys(b)[p] == Keys(b)[Next(|b|, q)] && b[q] == c {
      AllAlike(b, p, q);
    }
    NoneFalls(b, low, high);
    assert low == [] && high == [];
    LeftsAt(b, s, c, done, starts, low, 0, c);
    RightsAt(b, s, c, done, ends, high, 0, c);
    InPairsLength(b, s0);
    InPairsAt(b, s0, 0);
    InPairsAt(b, s0, |b| - 1);
    StartEnds(b, Pair(c, c) + 1);
  }

  lemma NoneFalls(b: seq<Byte>, low: seq<nat>, high: seq<nat>)
    requires forall q :: 0 <= q < |b| ==> Keys(b)[q] == Keys(b)[Next(|b|, q)]
    requires forall i :: 0 <= i < |low| ==> Falls(b, Keys(b), low[i])
    requires forall i :: 0 <= i < |high| ==> Falls(b, Down(b), high[i])
    ensures low == [] && high == []
  {
    hide Key, Keys;
    if low != [] {
      FirstFalls(b, Keys(b), low);
    }
    if high != [] {
      FirstFalls(b, Down(b), high);
    }
  }

  lemma FirstFalls(b: seq<Byte>, rank: seq<nat>, w: seq<nat>)
    requires w != [] && forall i :: 0 <= i < |w| ==> Falls(b, rank, w[i])
    ensures exists p :: 0 <= p < |b| && Falls(b, rank, p)
  {
    assert Falls(b, rank, w[0]);
  }

  /** All targets finished and nothing else moved. */
  ghost predicate TargetsFinished(b: seq<Byte>, s: seq<nat>, c: nat, done: seq<bool>) {
    |done| == 256 && forall t :: 0 <= t < 256 && !done[t] ==> Finished(b, s, Pair(t, c))
  }

  lemma StillInPairs(b: seq<Byte>, s0: seq<nat>, s: seq<nat>, c: nat, done: seq<bool>)
    requires InPairs(b, s0) && Untouched(b, s0, s, c, done) && TargetsFinished(b, s, c, done) && c < 256
    ensures InPairs(b, s)
  {
    hide Key, Keys, Start, Pairs, In, InPairs, Untouched, TargetsFinished;
    InPairsLength(b, s0);
    UntouchedLength(b, s0, s, c, done);
    PermutationOf(b, s0);
    forall k | 0 <= k < |b| ensures s[k] < |b| && Pairs(b)[s[k]] == Pairs(b)[s0[k]] && In(b, Pairs(b)[s[k]], k) {
      SamePair(b, s0, s, c, done, k);
    }
    forall k, l | 0 <= k < l < |b| ensures s[k] != s[l] {
      SamePair(b, s0, s, c, done, k);
      SamePair(b, s0, s, c, done, l);
      if s[k] == s[l] {
        TwoApart(b, s0, s, c, done, k, l);
      }
    }
    DistinctIsPermutation(s, |b|);
    InPairsIf(b, s);
  }

  lemma InPairsIf(b: seq<Byte>, s: seq<nat>)
    requires |s| == |b| && IsPermutation(s, |b|) && forall k :: 0 <= k < |b| ==> s[k] < |b| && In(b, Pairs(b)[s[k]], k)
    ensures InPairs(b, s)
  {
  }

  lemma PermutationOf(b: seq<Byte>, s: seq<nat>)
    requires InPairs(b, s)
    ensures forall k, l :: 0 <= k < l < |b| ==> s[k] != s[l]
  {
    PermutationFacts(s, |b|);
  }

  lemma UntouchedLength(b: seq<Byte>, s0: seq<nat>, s: seq<nat>, c: nat, done: seq<bool>)
    requires Untouched(b, s0, s, c, done)
    ensures |s| == |s0| == |b| && |done| == 256
  {
  }

  lemma SamePair(b: seq<Byte>, s0: seq<nat>, s: seq<nat>, c: nat, done: seq<bool>, k: nat)
    requires InPairs(b, s0) && Untouched(b, s0, s, c, done) && TargetsFinished(b, s, c, done) && c < 256 && k < |b|
    ensures |s| == |s0| == |b| == |Pairs(b)| && s[k] < |b| && s0[k] < |b| && Pairs(b)[s[k]] == Pairs(b)[s0[k]] && In(b, Pairs(b)[s[k]], k)
    ensures |done| == 256 && (!Target(c, done, Pairs(b)[s0[k]]) ==> s[k] == s0[k])
    ensures Target(c, done, Pairs(b)[s0[k]]) ==> Finished(b, s, Pairs(b)[s0[k]])
  {
    hide Key, Keys, Start, Pairs, InPairs;
    InPairsLength(b, s0);
    InPairsAt(b, s0, k);
    var v := Pairs(b)[s0[k]];
    if Target(c, done, v) {
      assert Pair(v / 256, c) == v;
    } else {
      assert Kept(b, s0, s, v);
    }
  }

  lemma TwoApart(b: seq<Byte>, s0: seq<nat>, s: seq<nat>, c: nat, done: seq<bool>, k: nat, l: nat)
    requires InPairs(b, s0) && Untouched(b, s0, s, c, done) && TargetsFinished(b, s, c, done) && c < 256 && k < l < |b|
    requires |s| == |b|
    ensures s[k] != s[l]
  {
    hide Key, Keys, Start, Pairs, In, InPairs, Untouched, TargetsFinished;
    SamePair(b, s0, s, c, done, k);
    SamePair(b, s0, s, c, done, l);
    PermutationOf(b, s0);
  }

  /** Both scans together: every bucket [t, c] with t not done is sorted, the others are as they were. */
  lemma ScansDone(b: seq<Byte>, s0: seq<nat>, s: seq<nat>, c: nat, done: seq<bool>, starts: seq<int>, ends: seq<int>,
                  xl: seq<nat>, low: seq<nat>, xh: seq<nat>, high: seq<nat>)
    requires Scanned(b, s0, s, c, done, starts, ends, xl, low, xh, high) && InPairs(b, s0) && c < 256 && |done| == 256 && !done[c]
    ensures InPairs(b, s) && Untouched(b, s0, s, c, done)
    ensures forall t :: 0 <= t < 256 && !done[t] ==> InOrder(b, s, Pair(t, c))
    ensures |starts| == |ends| == 256 && (starts[c] - 1 == ends[c] || (starts[c] == 0 && ends[c] == |b| - 1))
  {
    hide Key, Keys, Start, Pairs, In, InPairs, Tells, Ranking, Firsts, Walking, Lefts, Rights;
    UntouchedLength(b, s0, s, c, done);
    if Tells(b, c) {
      forall t | 0 <= t < 256 && !done[t] ensures Finished(b, s, Pair(t, c)) {
        BucketFinished(b, s0, s, c, done, starts, ends, xl, low, xh, high, t);
      }
      BucketFinished(b, s0, s, c, done, starts, ends, xl, low, xh, high, c);
      StillInPairs(b, s0, s, c, done);
      InPairsLength(b, s);
    } else {
      NothingTold(b, s0, s, c, done, starts, ends, xl, low, xh, high);
      InPairsLength(b, s);
    }
  }
}
