/** The main sort: big buckets in turn, the smallest first. */
module MainSort {
  import opened Permutations
  import opened Rotations
  import opened SegmentSort
  import opened SegmentSortStack
  import opened MainCompare
  import opened MainSimple
  import opened MainBuckets
  import opened MainOrder
  import opened MainCopy
  import opened MainScan
  import opened MainSteps

  // ---- Marking ----

  ghost predicate ColumnMarked(ftab: seq<nat>, c: nat, upto: nat) {
    |ftab| == PAIRS + 1 && c < 256 && upto <= 256 && forall t :: 0 <= t < upto ==> Flagged(ftab[Pair(t, c)])
  }

  /** Marking keeps all marks. */
  lemma MarksStay(ftab: seq<nat>, c: nat, t: nat)
    requires ColumnMarked(ftab, c, t) && RowMarked(ftab, c, 256) && t < 256 && Flagged(Marked(ftab[Pair(t, c)]))
    ensures var next := ftab[Pair(t, c) := Marked(ftab[Pair(t, c)])]; ColumnMarked(next, c, t + 1) && RowMarked(next, c, 256)
  {
    hide Flagged, Marked;
  }

  lemma CharacterMarked(b: seq<Byte>, s: seq<nat>, ftab: seq<nat>, done: seq<bool>, c: nat)
    requires Standing(b, s, ftab, done) && RowMarked(ftab, c, 256) && ColumnMarked(ftab, c, 256)
    ensures c < 256 && |done| == 256 && Standing(b, s, ftab, done[c := true])
  {
    hide InPairs, Starts, InOrder, Flagged;
    var next := done[c := true];
    forall d, t | 0 <= d < 256 && 0 <= t < 256 && next[d] ensures Flagged(ftab[Pair(d, t)]) && Flagged(ftab[Pair(t, d)]) {
    }
  }

  /** Marks all buckets [t, ss]. */
  method MarkColumn(ftab: array<nat>, ss: nat, ghost b: seq<Byte>, ghost s: seq<nat>, ghost done: seq<bool>)
    requires Standing(b, s, ftab[..], done) && RowMarked(ftab[..], ss, 256)
    requires forall t :: 0 <= t < 256 ==> InOrder(b, s, Pair(t, ss))
    modifies ftab
    ensures ss < 256 && |done| == 256 && Standing(b, s, ftab[..], done[ss := true])
    ensures RowMarked(ftab[..], ss, 256)
  {
    hide Standing, Flagged, Marked, InOrder, RowMarked;
    RowLength(ftab[..], ss, 256);
    var j := 0;
    while j <= 255
      invariant j <= 256 && Standing(b, s, ftab[..], done) && RowMarked(ftab[..], ss, 256) && ColumnMarked(ftab[..], ss, j)
    {
      ghost var marks := ftab[..];
      StandingMarks(b, s, marks, done, Pair(j, ss));
      MarksStay(marks, ss, j);
      ftab[Pair(j, ss)] := Marked(ftab[Pair(j, ss)]);
      assert ftab[..] == marks[Pair(j, ss) := Marked(marks[Pair(j, ss)])];
      j := j + 1;
    }
    CharacterMarked(b, s, ftab[..], done, ss);
  }

  lemma RowInOrder(b: seq<Byte>, s: seq<nat>, ftab: seq<nat>, done: seq<bool>, c: nat)
    requires Standing(b, s, ftab, done) && RowMarked(ftab, c, 256)
    ensures InPairs(b, s) && Starts(b, ftab) && ButMiddle(b, s, c)
  {
    hide InPairs, Starts, InOrder, Flagged;
    forall t | 0 <= t < 256 && t != c ensures InOrder(b, s, Pair(c, t)) {
      assert Flagged(ftab[Pair(c, t)]);
    }
  }

  /** What the second step leaves. */
  lemma SynthesisedStands(b: seq<Byte>, s0: seq<nat>, s: seq<nat>, ftab: seq<nat>, done: seq<bool>, c: nat)
    requires Standing(b, s0, ftab, done) && c < 256 && |done| == 256 && InPairs(b, s) && Untouched(b, s0, s, c, done)
    requires forall t :: 0 <= t < 256 && !done[t] ==> InOrder(b, s, Pair(t, c))
    ensures Standing(b, s, ftab, done) && forall t :: 0 <= t < 256 ==> InOrder(b, s, Pair(t, c))
  {
    hide InPairs, Starts, InOrder, Flagged, Untouched;
    forall v | 0 <= v < PAIRS && Flagged(ftab[v]) ensures InOrder(b, s, v) {
      if Target(c, done, v) {
        assert Pair(v / 256, c) == v;
      } else {
        UntouchedInOrder(b, s0, s, c, done, v);
      }
    }
    forall t | 0 <= t < 256 ensures InOrder(b, s, Pair(t, c)) {
      if done[t] {
        assert Flagged(ftab[Pair(t, c)]);
      }
    }
  }

  // ---- Step 3 ----

  /** Quadrants while those of character c are renewed, places up to j being still to do. */
  ghost predicate Renewing(b: seq<Byte>, s: seq<nat>, q0: seq<nat>, q: seq<nat>, c: nat, from: nat, size: nat, unit: nat, j: int) {
    && |q| == |q0| == |b| + OVERSHOOT && |b| > OVERSHOOT && unit > 0 && from + size <= |s| == |b| && InRange(s, |b|) && -1 <= j < size
    && (forall k :: j < k < size ==> q[s[from + k]] == k / unit)
    && (forall p :: 0 <= p < |b| && b[p] != c ==> q[p] == q0[p])
    && forall i :: |b| <= i < |b| + OVERSHOOT ==> q[i] == q[i - |b|]
  }

  /** The places from `from` on hold all rotations that start with c, in order. */
  ghost predicate BigBucket(b: seq<Byte>, s: seq<nat>, c: nat, from: nat, size: nat) {
    && from + size <= |s| == |b| && InRange(s, |b|)
    && (forall k :: from <= k < from + size ==> b[s[k]] == c)
    && (forall p :: 0 <= p < |b| && b[p] == c ==> exists k :: from <= k < from + size && s[k] == p)
    && forall k, l :: from <= k < l < from + size ==> s[k] != s[l] && Keys(b)[s[k]] <= Keys(b)[s[l]]
  }

  lemma BigBucketIs(b: seq<Byte>, s: seq<nat>, c: nat)
    requires InPairs(b, s) && c < 256 && forall t :: 0 <= t < 256 ==> InOrder(b, s, Pair(c, t))
    ensures Start(b, Pair(c, 0)) <= Start(b, Pair(c + 1, 0))
    ensures BigBucket(b, s, c, Start(b, Pair(c, 0)), Start(b, Pair(c + 1, 0)) - Start(b, Pair(c, 0)))
  {
    hide Key, Keys, Start, Pairs, InPairs, InOrder;
    BigBounds(b, c);
    InPairsLength(b, s);
    forall k | 0 <= k < |s| ensures b[s[k]] == c <==> Start(b, Pair(c, 0)) <= k < Start(b, Pair(c + 1, 0)) {
      InPairsAt(b, s, k);
      InOne(b, Pairs(b)[s[k]], Pair(c, 0), k);
      InOne(b, Pairs(b)[s[k]], Pair(c + 1, 0), k);
    }
    forall k, l | Start(b, Pair(c, 0)) <= k < l < Start(b, Pair(c + 1, 0)) ensures s[k] != s[l] && Keys(b)[s[k]] <= Keys(b)[s[l]] {
      InPairsAt(b, s, k);
      RangeOrder(b, s, k, l);
    }
    forall p | 0 <= p < |b| && b[p] == c ensures exists k :: Start(b, Pair(c, 0)) <= k < Start(b, Pair(c + 1, 0)) && s[k] == p {
      var k := PlaceOf(b, s, p);
    }
  }

  lemma RenewStep(b: seq<Byte>, s: seq<nat>, q0: seq<nat>, q: seq<nat>, c: nat, from: nat, size: nat, unit: nat, j: nat)
    requires Renewing(b, s, q0, q, c, from, size, unit, j) && BigBucket(b, s, c, from, size)
    ensures from + j < |s| && |b| + OVERSHOOT == |q|
    ensures var p := s[from + j];
            && p < |b|
            && var q1 := q[p := j / unit];
               Renewing(b, s, q0, if p < OVERSHOOT then q1[p + |b| := j / unit] else q1, c, from, size, unit, j - 1)
  {
    hide Keys, Key;
  }

  lemma RenewedAt(b: seq<Byte>, s: seq<nat>, q0: seq<nat>, q: seq<nat>, c: nat, from: nat, size: nat, unit: nat, p: nat) returns (k: nat)
    requires Renewing(b, s, q0, q, c, from, size, unit, -1) && BigBucket(b, s, c, from, size) && p < |b| && b[p] == c
    ensures k < size && from + size <= |s| && s[from + k] == p && unit > 0 && |q| > p && q[p] == k / unit
  {
    var l :| from <= l < from + size && s[l] == p;
    k := l - from;
    assert q[s[from + k]] == k / unit;
  }

  lemma BigOrder(b: seq<Byte>, s: seq<nat>, c: nat, from: nat, size: nat, k: nat, l: nat)
    requires BigBucket(b, s, c, from, size) && k < l < size
    ensures from + size <= |s| && s[from + k] < |b| && s[from + l] < |b| && Keys(b)[s[from + k]] <= Keys(b)[s[from + l]]
  {
    hide Key, Keys;
  }

  lemma QuotientOrder(k: nat, l: nat, unit: nat)
    requires unit > 0 && k / unit < l / unit
    ensures k < l
  {
    assert k == unit * (k / unit) + k % unit && l == unit * (l / unit) + l % unit;
    assert unit * (l / unit) >= unit * (k / unit + 1);
  }

  /** Quadrants of the character c tell the order of its rotations. */
  lemma RenewedTells(b: seq<Byte>, s: seq<nat>, q0: seq<nat>, q: seq<nat>, c: nat, from: nat, size: nat, unit: nat, i: nat, j: nat)
    requires Renewing(b, s, q0, q, c, from, size, unit, -1) && BigBucket(b, s, c, from, size)
    requires i < |b| && j < |b| && b[i] == c == b[j] && |q| > i && |q| > j && q[i] < q[j]
    ensures Keys(b)[i] <= Keys(b)[j]
  {
    hide Keys, Renewing, BigBucket;
    var k := RenewedAt(b, s, q0, q, c, from, size, unit, i);
    var l := RenewedAt(b, s, q0, q, c, from, size, unit, j);
    QuotientOrder(k, l, unit);
    BigOrder(b, s, c, from, size, k, l);
  }

  lemma RenewEnds(b: seq<Byte>, s: seq<nat>, q0: seq<nat>, q: seq<nat>, c: nat, from: nat, size: nat, unit: nat)
    requires Renewing(b, s, q0, q, c, from, size, unit, -1) && BigBucket(b, s, c, from, size) && QuadOk(b, q0)
    ensures QuadOk(b, q)
  {
    hide Key, BigBucket;
    forall i, j | 0 <= i < |b| && 0 <= j < |b| && b[i] == b[j] && q[i] < q[j] ensures Key(b, i, |b|) <= Key(b, j, |b|) {
      if b[i] == c {
        RenewedTells(b, s, q0, q, c, from, size, unit, i, j);
      }
    }
  }

  lemma RenewStarts(b: seq<Byte>, s: seq<nat>, q: seq<nat>, c: nat, from: nat, size: nat, unit: nat)
    requires BigBucket(b, s, c, from, size) && QuadOk(b, q) && unit > 0
    ensures Renewing(b, s, q, q, c, from, size, unit, size - 1)
  {
  }

  /** How far places are shifted to fit a quadrant. */
  method Shifts(bbSize: nat) returns (unit: nat)
    ensures unit > 0 && bbSize / unit <= 65534
  {
    unit := 1;
    while bbSize / unit > 65534
      invariant unit > 0
      decreases bbSize - unit
    {
      unit := 2 * unit;
    }
  }

  /** Step 3: renews the quadrants of the characters ss. */
  method RenewQuadrants(ptr: array<nat>, quadrant: array<nat>, nblock: nat, bbStart: nat, bbSize: nat, ghost b: seq<Byte>, ghost c: nat)
    requires ptr != quadrant && nblock == |b| && QuadOk(b, quadrant[..]) && BigBucket(b, ptr[..], c, bbStart, bbSize)
    modifies quadrant
    ensures QuadOk(b, quadrant[..])
  {
    hide QuadOk, BigBucket, Renewing;
    var unit := Shifts(bbSize);
    ghost var q0 := quadrant[..];
    RenewStarts(b, ptr[..], q0, c, bbStart, bbSize, unit);
    var j := bbSize - 1;
    while j >= 0
      invariant -1 <= j < bbSize && Renewing(b, ptr[..], q0, quadrant[..], c, bbStart, bbSize, unit, j)
    {
      ghost var q := quadrant[..];
      RenewStep(b, ptr[..], q0, q, c, bbStart, bbSize, unit, j);
      var a2update := ptr[bbStart + j];
      QuotientBound(j, bbSize, unit);
      var qVal: nat := j / unit % 0x1_0000;
      quadrant[a2update] := qVal;
      if a2update < OVERSHOOT {
        quadrant[a2update + nblock] := qVal;
        ghost var q1: seq<nat> := q[a2update := qVal];
        assert quadrant[..] == q1[a2update + nblock := qVal];
      } else {
        assert quadrant[..] == q[a2update := qVal];
      }
      j := j - 1;
    }
    RenewEnds(b, ptr[..], q0, quadrant[..], c, bbStart, bbSize, unit);
  }

  lemma QuotientBound(j: nat, size: nat, unit: nat)
    requires j < size && unit > 0 && size / unit <= 65534
    ensures j / unit % 0x1_0000 == j / unit <= 65534
  {
    if j / unit > size / unit {
      QuotientOrder(size, j, unit);
    }
  }

  // ---- The sort ----

  /** Counts the pairs, repeats the first characters, and puts every rotation into the bucket of its pair. */
  method RadixSort(ptr: array<nat>, block: array<nat>, quadrant: array<nat>, ftab: array<nat>, nblock: nat, ghost b: seq<Byte>)
    requires ptr != block && ptr != quadrant && ptr != ftab && block != quadrant && block != ftab && quadrant != ftab
    requires Holds(b, block[..]) && nblock == |b| == ptr.Length && nblock < SETMASK && quadrant.Length == nblock + OVERSHOOT && ftab.Length == PAIRS + 1
    modifies ptr, block, quadrant, ftab
    ensures BlockIs(b, block[..]) && QuadOk(b, quadrant[..]) && InPairs(b, ptr[..])
    ensures forall v :: 0 <= v <= PAIRS ==> ftab[v] == Start(b, v)
  {
    hide Start, Pairs, InPairs, BlockIs, Holds, Counted;
    HoldsLength(b, block[..]);
    CountPairs(block, quadrant, ftab, nblock, b);
    Overshoot(block, quadrant, nblock, b);
    SumCounts(ftab, b);
    BlockHolds(b, block[..]);
    PlacePairs(ptr, block, ftab, nblock, b);
    AllZero(b, quadrant[..]);
  }

  lemma HoldsLength(b: seq<Byte>, block: seq<nat>)
    requires Holds(b, block)
    ensures |b| > OVERSHOOT
  {
  }

  lemma BlockHolds(b: seq<Byte>, block: seq<nat>)
    requires BlockIs(b, block)
    ensures Holds(b, block)
  {
  }

  lemma AllZero(b: seq<Byte>, q: seq<nat>)
    requires |q| == |b| + OVERSHOOT && |b| > OVERSHOOT && forall i :: 0 <= i < |q| ==> q[i] == 0
    ensures QuadOk(b, q)
  {
  }

  lemma StandingStarts(b: seq<Byte>, s: seq<nat>, ftab: seq<nat>, done: seq<bool>)
    requires InPairs(b, s) && |ftab| == PAIRS + 1 && |b| < SETMASK && |done| == 256
    requires forall v :: 0 <= v <= PAIRS ==> ftab[v] == Start(b, v)
    requires forall c :: 0 <= c < 256 ==> !done[c]
    ensures Standing(b, s, ftab, done)
  {
    hide InPairs, Start;
    StartsInitially(b, ftab);
  }

  ghost function BigSizes(b: seq<Byte>): (f: seq<nat>)
    ensures |f| == 256 && forall c :: 0 <= c < 256 ==> Start(b, c * 256) + f[c] == Start(b, (c + 1) * 256)
  {
    seq(256, c requires 0 <= c < 256 => BigSize(b, c))
  }

  ghost function BigSize(b: seq<Byte>, c: nat): nat {
    StartMonotone(b, c * 256, (c + 1) * 256);
    Start(b, (c + 1) * 256) - Start(b, c * 256)
  }

  lemma SizesAre(b: seq<Byte>, ftab: seq<nat>)
    requires |ftab| == PAIRS + 1 && forall v :: 0 <= v <= PAIRS ==> ftab[v] == Start(b, v)
    ensures Sizes(ftab, BigSizes(b))
  {
    hide Start;
  }

  /** The characters done are those the order has had. */
  ghost predicate DoneUpTo(order: seq<nat>, done: seq<bool>, i: nat) {
    |order| == |done| == 256 && i <= 256 && InRange(order, 256) && IsPermutation(order, 256)
    && (forall k :: 0 <= k < i ==> done[order[k]]) && forall k :: i <= k < 256 ==> !done[order[k]]
  }

  lemma DoneNext(order: seq<nat>, done: seq<bool>, i: nat)
    requires DoneUpTo(order, done, i) && i < 256
    ensures |order| == |done| == 256 && order[i] < 256 && !done[order[i]] && DoneUpTo(order, done[order[i] := true], i + 1)
  {
    PermutationFacts(order, 256);
  }

  lemma DoneAll(order: seq<nat>, done: seq<bool>)
    requires DoneUpTo(order, done, 256)
    ensures |done| == 256 && forall c :: 0 <= c < 256 ==> done[c]
  {
    forall c | 0 <= c < 256 ensures done[c] {
      var k := PermutationHits(order, 256, c);
    }
  }

  lemma StandingEnds(b: seq<Byte>, s: seq<nat>, ftab: seq<nat>, done: seq<bool>)
    requires Standing(b, s, ftab, done) && forall c :: 0 <= c < 256 ==> done[c]
    ensures SortedRotations(b, s)
  {
    hide Key, InOrder, Flagged, Starts, Pairs;
    forall k, l | 0 <= k < l < |s| ensures Key(b, s[k], |b|) <= Key(b, s[l], |b|) {
      InPairsAt(b, s, k);
      var v := Pairs(b)[s[k]];
      assert Flagged(ftab[Pair(b[s[k]], b[Next(|b|, s[k])])]);
      RangeOrder(b, s, k, l);
    }
  }

  /** One big bucket: its small buckets, what follows from it, and its quadrants. */
  method SortBig(ptr: array<nat>, block: array<nat>, quadrant: array<nat>, ftab: array<nat>, nblock: nat, ss: nat, last: bool,
                 bigDone: array<bool>, budget_: int, ghost b: seq<Byte>)
    returns (budget: int)
    requires ptr != block && ptr != quadrant && ptr != ftab && block != quadrant && block != ftab && quadrant != ftab
    requires nblock == |b| <= MAX_BLOCK && BlockIs(b, block[..]) && QuadOk(b, quadrant[..]) && budget_ >= 0
    requires bigDone.Length == 256 && ss < 256 && !bigDone[ss] && Standing(b, ptr[..], ftab[..], bigDone[..])
    modifies ptr, quadrant, ftab, bigDone
    ensures QuadOk(b, quadrant[..]) && InRange(ptr[..], nblock)
    ensures budget >= 0 ==> Standing(b, ptr[..], ftab[..], bigDone[..]) && bigDone[..] == old(bigDone[..])[ss := true]
  {
    hide BlockIs, QuadOk, Standing, RowMarked, InPairs, Starts, ButMiddle, Untouched, InOrder, Start, BigBucket, Cleared;
    ghost var done := bigDone[..];
    budget := SortBuckets(ptr, block, quadrant, ftab, nblock, ss, budget_, b, done);
    if budget < 0 { return; }
    RowInOrder(b, ptr[..], ftab[..], done, ss);
    ghost var s0 := ptr[..];
    Synthesise(ptr, block, ftab, nblock, ss, bigDone, b);
    SynthesisedStands(b, s0, ptr[..], ftab[..], done, ss);
    MarkColumn(ftab, ss, b, ptr[..], done);
    bigDone[ss] := true;
    assert bigDone[..] == done[ss := true];
    StandingLength(b, ptr[..], ftab[..], bigDone[..]);
    if !last {
      BigReady(b, ptr[..], ftab[..], bigDone[..], ss);
      var bbStart := Cleared(ftab[Pair(ss, 0)]);
      var bbSize := Cleared(ftab[Pair(ss + 1, 0)]) - bbStart;
      RenewQuadrants(ptr, quadrant, nblock, bbStart, bbSize, b, ss);
    }
  }

  lemma BigReady(b: seq<Byte>, s: seq<nat>, ftab: seq<nat>, done: seq<bool>, c: nat)
    requires Standing(b, s, ftab, done) && c < 256 && |done| == 256 && done[c]
    ensures |ftab| == PAIRS + 1 && Cleared(ftab[Pair(c, 0)]) <= Cleared(ftab[Pair(c + 1, 0)])
    ensures BigBucket(b, s, c, Cleared(ftab[Pair(c, 0)]), Cleared(ftab[Pair(c + 1, 0)]) - Cleared(ftab[Pair(c, 0)]))
  {
    hide InPairs, InOrder, Start, BigBucket, Cleared, Flagged;
    StartsAt(b, ftab, Pair(c, 0));
    StartsAt(b, ftab, Pair(c + 1, 0));
    forall t | 0 <= t < 256 ensures InOrder(b, s, Pair(c, t)) {
      assert Flagged(ftab[Pair(c, t)]);
    }
    BigBucketIs(b, s, c);
  }

  /** Sorts the rotations of the block, unless the budget runs out. */
  method MainSort(ptr: array<nat>, block: array<nat>, quadrant: array<nat>, ftab: array<nat>, nblock: nat, budget_: int, ghost b: seq<Byte>)
    returns (budget: int)
    requires ptr != block && ptr != quadrant && ptr != ftab && block != quadrant && block != ftab && quadrant != ftab
    requires Holds(b, block[..]) && nblock == |b| == ptr.Length && nblock <= MAX_BLOCK
    requires quadrant.Length == nblock + OVERSHOOT && ftab.Length == PAIRS + 1 && budget_ >= 0
    modifies ptr, block, quadrant, ftab
    ensures budget >= 0 ==> SortedRotations(b, ptr[..])
    ensures BlockIs(b, block[..])
  {
    hide BlockIs, QuadOk, Standing, InPairs, Start, Holds, DoneUpTo, Sizes, SortedRotations;
    RadixSort(ptr, block, quadrant, ftab, nblock, b);
    var bigDone := new bool[256](_ => false);
    StandingStarts(b, ptr[..], ftab[..], bigDone[..]);
    SizesAre(b, ftab[..]);
    var runningOrder := RunningOrder(ftab, BigSizes(b));
    DoneStarts(runningOrder[..], bigDone[..]);
    budget := budget_;
    var i := 0;
    while i <= 255
      invariant i <= 256 && budget >= 0 && DoneUpTo(runningOrder[..], bigDone[..], i)
      invariant BlockIs(b, block[..]) && QuadOk(b, quadrant[..]) && Standing(b, ptr[..], ftab[..], bigDone[..])
      invariant runningOrder != ptr && runningOrder != quadrant && runningOrder != ftab && fresh(runningOrder) && fresh(bigDone)
    {
      DoneNext(runningOrder[..], bigDone[..], i);
      var ss := runningOrder[i];
      budget := SortBig(ptr, block, quadrant, ftab, nblock, ss, i == 255, bigDone, budget, b);
      if budget < 0 { return; }
      i := i + 1;
    }
    DoneAll(runningOrder[..], bigDone[..]);
    StandingEnds(b, ptr[..], ftab[..], bigDone[..]);
  }

  lemma DoneStarts(order: seq<nat>, done: seq<bool>)
    requires IsPermutation(order, 256) && InRange(order, 256) && |order| == |done| == 256 && forall c :: 0 <= c < 256 ==> !done[c]
    ensures DoneUpTo(order, done, 0)
  {
  }
}
