/** The fallback block sort: prefix doubling over header-marked buckets. */
module FallbackSort {
  import opened Permutations
  import opened Rotations
  import opened HeaderBits
  import opened ByteView
  import opened RadixPass
  import opened SegmentSort
  import opened SegmentSortStack

  ghost predicate Rows(b: seq<Byte>, fm: seq<nat>) {
    && IsPermutation(fm, |b|) && |fm| == |b|
    && forall a :: 0 <= a < |fm| ==> fm[a] < |b|
  }

  /** Up to row `upto`, rows ascend by their first h characters and headers mark exactly the changes. */
  ghost predicate Classified(b: seq<Byte>, fm: seq<nat>, fl: seq<bool>, h: nat, upto: nat)
    requires Rows(b, fm)
  {
    && upto <= |b| <= |fl|
    && (upto > 0 ==> fl[0])
    && forall a :: 0 < a < upto ==>
         && Key(b, fm[a - 1], h) <= Key(b, fm[a], h)
         && (fl[a] <==> Key(b, fm[a - 1], h) < Key(b, fm[a], h))
  }

  lemma {:induction false} ClassifiedSorted(b: seq<Byte>, fm: seq<nat>, fl: seq<bool>, h: nat, upto: nat, x: nat, y: nat)
    requires Rows(b, fm) && Classified(b, fm, fl, h, upto) && x <= y < upto
    ensures Key(b, fm[x], h) <= Key(b, fm[y], h)
    decreases y
  {
    if x < y {
      ClassifiedSorted(b, fm, fl, h, upto, x, y - 1);
    }
  }

  /** The header at or before row a: the number of a's bucket. */
  ghost function HeaderOf(fl: seq<bool>, a: nat): (z: nat)
    requires a < |fl|
    ensures z <= a && (fl[z] || z == 0)
    ensures forall k :: z < k <= a ==> !fl[k]
  {
    if fl[a] || a == 0 then a else HeaderOf(fl, a - 1)
  }

  lemma {:induction false} SameBucketSameKey(b: seq<Byte>, fm: seq<nat>, fl: seq<bool>, h: nat, x: nat, y: nat)
    requires Rows(b, fm) && Classified(b, fm, fl, h, |b|) && x <= y < |b|
    requires forall k :: x < k <= y ==> !fl[k]
    ensures Key(b, fm[x], h) == Key(b, fm[y], h)
    decreases y
  {
    if x < y {
      SameBucketSameKey(b, fm, fl, h, x, y - 1);
    }
  }

  /** Bucket numbers compare as the keys of the buckets do. */
  lemma HeaderOrder(b: seq<Byte>, fm: seq<nat>, fl: seq<bool>, h: nat, x: nat, y: nat)
    requires Rows(b, fm) && Classified(b, fm, fl, h, |b|) && x < |b| && y < |b|
    ensures HeaderOf(fl, x) < HeaderOf(fl, y) <==> Key(b, fm[x], h) < Key(b, fm[y], h)
    ensures HeaderOf(fl, x) == HeaderOf(fl, y) <==> Key(b, fm[x], h) == Key(b, fm[y], h)
  {
    HeaderOrderOneWay(b, fm, fl, h, x, y);
    HeaderOrderOneWay(b, fm, fl, h, y, x);
    if HeaderOf(fl, x) == HeaderOf(fl, y) {
      var z := HeaderOf(fl, x);
      SameBucketSameKey(b, fm, fl, h, z, x);
      SameBucketSameKey(b, fm, fl, h, z, y);
    }
  }

  lemma HeaderOrderOneWay(b: seq<Byte>, fm: seq<nat>, fl: seq<bool>, h: nat, x: nat, y: nat)
    requires Rows(b, fm) && Classified(b, fm, fl, h, |b|) && x < |b| && y < |b|
    ensures HeaderOf(fl, x) < HeaderOf(fl, y) ==> Key(b, fm[x], h) < Key(b, fm[y], h)
  {
    var z := HeaderOf(fl, y);
    if HeaderOf(fl, x) < z {
      assert x < z;
      SameBucketSameKey(b, fm, fl, h, z, y);
      ClassifiedSorted(b, fm, fl, h, |b|, x, z - 1);
    }
  }

  /** Ranks compare as the keys of the rotations h further on. */
  ghost predicate Ranked(b: seq<Byte>, rank: seq<nat>, h: nat) {
    && |b| <= |rank| && h <= |b|
    && forall p, q :: 0 <= p < |b| && 0 <= q < |b| ==>
         var u, v := Key(b, Advance(|b|, p, h), h), Key(b, Advance(|b|, q, h), h);
         && (rank[p] < rank[q] <==> u < v) && (rank[p] == rank[q] <==> u == v)
  }

  function Retreat(n: nat, i: nat, h: nat): (j: nat)
    requires i < n && h <= n
    ensures j < n && Advance(n, j, h) == i
  {
    if i >= h then i - h else i + n - h
  }

  lemma RanksFromHeaders(b: seq<Byte>, fm: seq<nat>, fl: seq<bool>, rank: seq<nat>, h: nat)
    requires Rows(b, fm) && Classified(b, fm, fl, h, |b|) && |b| <= |rank| && h <= |b|
    requires forall a :: 0 <= a < |b| ==> rank[Retreat(|b|, fm[a], h)] == HeaderOf(fl, a)
    ensures Ranked(b, rank, h)
  {
    var n := |b|;
    forall p, q | 0 <= p < n && 0 <= q < n
      ensures var u, v := Key(b, Advance(n, p, h), h), Key(b, Advance(n, q, h), h);
              && (rank[p] < rank[q] <==> u < v) && (rank[p] == rank[q] <==> u == v)
    {
      var x := PermutationHits(fm, n, Advance(n, p, h));
      var y := PermutationHits(fm, n, Advance(n, q, h));
      assert Retreat(n, fm[x], h) == p && Retreat(n, fm[y], h) == q;
      HeaderOrder(b, fm, fl, h, x, y);
    }
  }

  /** The positions h before rows 0..i-1 have been given their bucket numbers. */
  ghost predicate NumberedTo(fm: seq<nat>, fl: seq<bool>, rank: seq<nat>, n: nat, h: nat, i: nat) {
    && i <= n == |fm| && n <= |rank| && n <= |fl| && h <= n
    && forall a :: 0 <= a < i ==> fm[a] < n && rank[Retreat(n, fm[a], h)] == HeaderOf(fl, a)
  }

  lemma NumberedStep(b: seq<Byte>, fm: seq<nat>, fl: seq<bool>, rank: seq<nat>, h: nat, i: nat)
    requires Rows(b, fm) && i < |b| && h <= |b| && NumberedTo(fm, fl, rank, |b|, h, i)
    ensures NumberedTo(fm, fl, rank[Retreat(|b|, fm[i], h) := HeaderOf(fl, i)], |b|, h, i + 1)
  {
    PermutationFacts(fm, |b|);
    forall a | 0 <= a < i ensures Retreat(|b|, fm[a], h) != Retreat(|b|, fm[i], h) {
      assert fm[a] != fm[i];
    }
  }

  /** Numbers every position by the bucket of the rotation h further on. */
  method FillRanks(fmap: array<nat>, eclass: array<nat>, bhtab: array<nat>, nblock: nat, h: nat, ghost b: seq<Byte>)
    requires fmap != eclass && fmap != bhtab && eclass != bhtab
    requires fmap.Length == nblock == |b| <= eclass.Length && h <= nblock <= 32 * bhtab.Length
    requires Rows(b, fmap[..]) && Classified(b, fmap[..], Flags(bhtab[..]), h, nblock)
    modifies eclass
    ensures Ranked(b, eclass[..], h)
  {
    ghost var fm, fl := fmap[..], Flags(bhtab[..]);
    hide Flags, Classified;
    var i, j := 0, 0;
    while i < nblock
      invariant i <= nblock && fmap[..] == fm && bhtab[..] == old(bhtab[..])
      invariant i > 0 ==> j == HeaderOf(fl, i - 1)
      invariant NumberedTo(fm, fl, eclass[..], nblock, h, i)
    {
      var header := IsSet(bhtab, i);
      if header { j := i; }
      var k: int := fmap[i] - h;
      if k < 0 { k := k + nblock; }
      assert k == Retreat(nblock, fm[i], h) && j == HeaderOf(fl, i);
      NumberedStep(b, fm, fl, eclass[..], h, i);
      eclass[k] := j;
      i := i + 1;
    }
    RanksFromHeaders(b, fm, fl, eclass[..], h);
  }

  /** A pass in progress: rows below `upto` are classified by 2h characters, the others wait. */
  ghost predicate Passing(b: seq<Byte>, fm0: seq<nat>, fl0: seq<bool>, fm: seq<nat>, fl: seq<bool>, h: nat, upto: nat) {
    && Rows(b, fm0) && Rows(b, fm) && |fl| == |fl0|
    && Classified(b, fm, fl, 2 * h, upto)
    && (forall a :: 0 <= a < |b| ==> Key(b, fm[a], h) == Key(b, fm0[a], h))
    && (forall a :: upto <= a < |b| ==> fm[a] == fm0[a])
    && (forall a :: upto <= a < |fl| ==> fl[a] == fl0[a])
  }

  lemma DoubleKey(b: seq<Byte>, i: nat, j: nat, h: nat)
    requires i < |b| && j < |b| && h <= |b|
    ensures
      var x, y := Key(b, i, h), Key(b, j, h);
      var u, v := Key(b, Advance(|b|, i, h), h), Key(b, Advance(|b|, j, h), h);
      && (Key(b, i, 2 * h) < Key(b, j, 2 * h) <==> x < y || (x == y && u < v))
      && (Key(b, i, 2 * h) == Key(b, j, 2 * h) <==> x == y && u == v)
  {
    KeyOrder(b, i, j, h, h);
    assert h + h == 2 * h;
  }

  /** Buckets of one row need no work. */
  lemma SkipSingletons(b: seq<Byte>, fm0: seq<nat>, fl0: seq<bool>, fm: seq<nat>, fl: seq<bool>, h: nat, upto: nat, l: nat)
    requires Passing(b, fm0, fl0, fm, fl, h, upto) && h <= |b| && upto <= l <= |b|
    requires Classified(b, fm0, fl0, h, |b|)
    requires forall a :: upto <= a < l ==> fl0[a]
    ensures Passing(b, fm0, fl0, fm, fl, h, l)
  {
    forall a | upto <= a < l && 0 < a
      ensures Key(b, fm[a - 1], 2 * h) < Key(b, fm[a], 2 * h)
    {
      assert Key(b, fm0[a - 1], h) < Key(b, fm0[a], h);
      DoubleKey(b, fm[a - 1], fm[a], h);
    }
  }

  /** What marking leaves in bucket [l, r]: a header at every change of rank. */
  ghost predicate Marked(rank: seq<nat>, fm: seq<nat>, was: seq<bool>, fl: seq<bool>, l: nat, r: nat)
    requires InRange(fm, |rank|)
  {
    && l <= r < |fm| <= |was| == |fl|
    && (forall a :: 0 <= a < |fl| && !(l <= a <= r) ==> fl[a] == was[a])
    && fl[l]
    && forall a :: l < a <= r ==> (fl[a] <==> was[a] || rank[fm[a - 1]] != rank[fm[a]])
  }

  lemma MarkStep(rank: seq<nat>, fm: seq<nat>, was: seq<bool>, fl: seq<bool>, l: nat, i: nat)
    requires InRange(fm, |rank|) && l < i < |fm| && Marked(rank, fm, was, fl, l, i - 1)
    ensures var change := rank[fm[i - 1]] != rank[fm[i]];
            Marked(rank, fm, was, if change then fl[i := true] else fl, l, i)
  {
  }

  lemma MarkFirst(rank: seq<nat>, fm: seq<nat>, was: seq<bool>, l: nat)
    requires InRange(fm, |rank|) && l < |fm| <= |was|
    ensures Marked(rank, fm, was, was[l := true], l, l)
  {
  }

  /** The header state after the first i - l rows of the bucket. */
  ghost predicate MarkedTo(rank: seq<nat>, fm: seq<nat>, was: seq<bool>, fl: seq<bool>, l: nat, i: nat, cc: int)
    requires InRange(fm, |rank|) && l <= i <= |fm|
  {
    if i == l then cc == -1 && fl == was && |fm| <= |was|
    else cc == rank[fm[i - 1]] && Marked(rank, fm, was, fl, l, i - 1)
  }

  method MarkOne(bhtab: array<nat>, l: nat, i: nat, cc: int, cc1: nat,
                 ghost rank: seq<nat>, ghost fm: seq<nat>, ghost was: seq<bool>) returns (cc': int)
    requires InRange(fm, |rank|) && l <= i < |fm| <= 32 * bhtab.Length && cc1 == rank[fm[i]]
    requires Words(bhtab[..]) && MarkedTo(rank, fm, was, Flags(bhtab[..]), l, i, cc)
    modifies bhtab
    ensures Words(bhtab[..]) && MarkedTo(rank, fm, was, Flags(bhtab[..]), l, i + 1, cc')
  {
    if i == l {
      MarkFirst(rank, fm, was, l);
    } else {
      MarkStep(rank, fm, was, Flags(bhtab[..]), l, i);
    }
    hide Marked, Flags;
    if cc != cc1 {
      Raise(bhtab, i);
    }
    cc' := cc1;
  }

  method MarkHeaders(fmap: array<nat>, eclass: array<nat>, bhtab: array<nat>, l: nat, r: nat)
    requires fmap != bhtab && eclass != bhtab && l <= r < fmap.Length <= 32 * bhtab.Length
    requires InRange(fmap[..], eclass.Length) && Words(bhtab[..])
    modifies bhtab
    ensures Words(bhtab[..])
    ensures Marked(eclass[..], fmap[..], old(Flags(bhtab[..])), Flags(bhtab[..]), l, r)
  {
    var cc: int := -1;
    var i := l;
    ghost var was, rank, fm := Flags(bhtab[..]), eclass[..], fmap[..];
    assert MarkedTo(rank, fm, was, was, l, l, -1);
    hide MarkedTo;
    while i <= r
      invariant l <= i <= r + 1 && fmap[..] == fm && eclass[..] == rank
      invariant Words(bhtab[..]) && MarkedTo(rank, fm, was, Flags(bhtab[..]), l, i, cc)
    {
      cc := MarkOne(bhtab, l, i, cc, eclass[fmap[i]], rank, fm, was);
      i := i + 1;
    }
    MarkedAll(rank, fm, was, Flags(bhtab[..]), l, r, cc);
  }

  lemma MarkedAll(rank: seq<nat>, fm: seq<nat>, was: seq<bool>, fl: seq<bool>, l: nat, r: nat, cc: int)
    requires InRange(fm, |rank|) && l <= r < |fm| && MarkedTo(rank, fm, was, fl, l, r + 1, cc)
    ensures Marked(rank, fm, was, fl, l, r)
  {
  }

  lemma RankDoubles(b: seq<Byte>, rank: seq<nat>, i: nat, j: nat, h: nat)
    requires Ranked(b, rank, h) && i < |b| && j < |b|
    ensures Key(b, i, 2 * h) < Key(b, j, 2 * h) <==>
              Key(b, i, h) < Key(b, j, h) || (Key(b, i, h) == Key(b, j, h) && rank[i] < rank[j])
    ensures Key(b, i, 2 * h) == Key(b, j, 2 * h) <==> Key(b, i, h) == Key(b, j, h) && rank[i] == rank[j]
  {
    DoubleKey(b, i, j, h);
  }

  /** The bucket [l, r] of fm0: one header at l, the next at r + 1. */
  ghost predicate Bucket(b: seq<Byte>, fl0: seq<bool>, l: nat, r: nat) {
    && l <= r < |b| <= |fl0|
    && fl0[l]
    && (r + 1 < |b| ==> fl0[r + 1])
    && forall a :: l < a <= r ==> !fl0[a]
  }

  lemma BucketKeys(b: seq<Byte>, fm0: seq<nat>, fl0: seq<bool>, fm: seq<nat>, fm': seq<nat>, h: nat, l: nat, r: nat)
    requires Rows(b, fm0) && Rows(b, fm) && Rows(b, fm') && Classified(b, fm0, fl0, h, |b|) && Bucket(b, fl0, l, r)
    requires forall a :: l <= a < |b| ==> fm[a] == fm0[a]
    requires forall a :: 0 <= a < |b| ==> Key(b, fm[a], h) == Key(b, fm0[a], h)
    requires RangePermutation(fm, fm', l, r)
    ensures forall a :: 0 <= a < |b| ==> Key(b, fm'[a], h) == Key(b, fm0[a], h)
    ensures forall a :: l <= a <= r ==> Key(b, fm'[a], h) == Key(b, fm0[l], h)
  {
    forall a | l <= a <= r ensures Key(b, fm0[a], h) == Key(b, fm0[l], h) {
      SameBucketSameKey(b, fm0, fl0, h, l, a);
    }
    forall a | l <= a <= r ensures Key(b, fm'[a], h) == Key(b, fm0[l], h) {
      var m := RangeSource(fm, fm', l, r, a);
    }
  }

  /** Sorting a bucket by rank and marking it classifies it by twice as many characters. */
  lemma BucketRefined(b: seq<Byte>, rank: seq<nat>, fm0: seq<nat>, fl0: seq<bool>, fm: seq<nat>, fl: seq<bool>,
                      fm': seq<nat>, fl': seq<bool>, h: nat, l: nat, r: nat)
    requires Passing(b, fm0, fl0, fm, fl, h, l) && Classified(b, fm0, fl0, h, |b|) && Bucket(b, fl0, l, r)
    requires Ranked(b, rank, h) && RangePermutation(fm, fm', l, r) && Rows(b, fm')
    requires InRange(fm', |rank|) && Sorted(rank, fm', l, r) && Marked(rank, fm', fl, fl', l, r)
    ensures Passing(b, fm0, fl0, fm', fl', h, r + 1)
  {
    BucketKeys(b, fm0, fl0, fm, fm', h, l, r);
    forall a | 0 < a < r + 1
      ensures Key(b, fm'[a - 1], 2 * h) <= Key(b, fm'[a], 2 * h)
      ensures fl'[a] <==> Key(b, fm'[a - 1], 2 * h) < Key(b, fm'[a], 2 * h)
    {
      if a < l {
        assert fm'[a - 1] == fm[a - 1] && fm'[a] == fm[a] && fl'[a] == fl[a];
      } else {
        RankDoubles(b, rank, fm'[a - 1], fm'[a], h);
        if a == l {
          assert Key(b, fm0[a - 1], h) < Key(b, fm0[a], h);
        } else {
          assert rank[fm'[a - 1]] <= rank[fm'[a]];
        }
      }
    }
  }

  /** The alternating flags after the last row, which stop every scan. */
  ghost predicate Sentinels(fl: seq<bool>, n: nat) {
    n + 1 < |fl| && fl[n] && !fl[n + 1]
  }

  /** Finds the next bucket of several rows; none is left if l reaches nblock. */
  method NextBucket(bhtab: array<nat>, from: nat, nblock: nat) returns (l: int, r: int)
    requires Words(bhtab[..]) && Sentinels(Flags(bhtab[..]), nblock) && from <= nblock
    requires Flags(bhtab[..])[from]
    ensures from <= l <= nblock && forall a :: from <= a <= l ==> Flags(bhtab[..])[a]
    ensures l < nblock ==> l < r < nblock && Flags(bhtab[..])[r + 1] && forall a :: l < a <= r ==> !Flags(bhtab[..])[a]
  {
    var k := SkipFlags(bhtab, from, true, nblock + 1);
    l, r := k - 1, -1;
    if l >= nblock { return; }
    k := SkipFlags(bhtab, k, false, nblock);
    r := k - 1;
  }

  ghost predicate AllHeaders(fl: seq<bool>, upto: nat) {
    upto <= |fl| && forall a :: 0 <= a < upto ==> fl[a]
  }

  /** What holds between two buckets of a pass, the next bucket starting at row `from`. */
  ghost predicate MidPass(b: seq<Byte>, fm0: seq<nat>, fl0: seq<bool>, fm: seq<nat>, fl: seq<bool>, h: nat,
                          from: nat, nNotDone: nat) {
    && Passing(b, fm0, fl0, fm, fl, h, from) && Classified(b, fm0, fl0, h, |b|) && h <= |b|
    && Sentinels(fl0, |b|) && from <= |b| && fl0[from]
    && (nNotDone == 0 ==> AllHeaders(fl0, from))
  }

  lemma MidPassAdvance(b: seq<Byte>, fm0: seq<nat>, fl0: seq<bool>, fm: seq<nat>, fl: seq<bool>, h: nat,
                       from: nat, nNotDone: nat, l: nat)
    requires MidPass(b, fm0, fl0, fm, fl, h, from, nNotDone)
    requires from <= l <= |b| && forall a :: from <= a <= l ==> fl[a]
    ensures MidPass(b, fm0, fl0, fm, fl, h, l, nNotDone)
  {
    forall a | from <= a <= l ensures fl0[a] {
      assert fl[a] == fl0[a];
    }
    SkipSingletons(b, fm0, fl0, fm, fl, h, from, l);
  }

  lemma MidPassReady(b: seq<Byte>, fm0: seq<nat>, fl0: seq<bool>, fm: seq<nat>, fl: seq<bool>, h: nat,
                     from: nat, nNotDone: nat)
    requires MidPass(b, fm0, fl0, fm, fl, h, from, nNotDone)
    ensures Sentinels(fl, |b|) && from <= |b| < |fl| && fl[from]
  {
  }

  lemma BucketUnseen(b: seq<Byte>, fm0: seq<nat>, fl0: seq<bool>, fm: seq<nat>, fl: seq<bool>, h: nat,
                     nNotDone: nat, l: nat, r: nat)
    requires MidPass(b, fm0, fl0, fm, fl, h, l, nNotDone) && r < |b|
    requires l < r && fl[r + 1] && forall a :: l < a <= r ==> !fl[a]
    ensures Bucket(b, fl0, l, r) && fl0[r + 1]
  {
    forall a | l < a <= r + 1 ensures fl0[a] == fl[a] {
    }
  }

  /** Sorts and marks one bucket. */
  method RefineBucket(fmap: array<nat>, eclass: array<nat>, bhtab: array<nat>, l: nat, r: nat, ghost nNotDone: nat,
                      ghost b: seq<Byte>, ghost fm0: seq<nat>, ghost fl0: seq<bool>, ghost h: nat)
    requires fmap != eclass && fmap != bhtab && eclass != bhtab
    requires fmap.Length == |b| <= MAX_BLOCK && Words(bhtab[..]) && Ranked(b, eclass[..], h)
    requires MidPass(b, fm0, fl0, fmap[..], Flags(bhtab[..]), h, l, nNotDone)
    requires l < r < |b| && r + 1 < |Flags(bhtab[..])|
    requires Flags(bhtab[..])[r + 1] && forall a :: l < a <= r ==> !Flags(bhtab[..])[a]
    modifies fmap, bhtab
    ensures Words(bhtab[..])
    ensures MidPass(b, fm0, fl0, fmap[..], Flags(bhtab[..]), h, r + 1, nNotDone + (r - l + 1))
  {
    ghost var fm, fl, rank := fmap[..], Flags(bhtab[..]), eclass[..];
    BucketUnseen(b, fm0, fl0, fm, fl, h, nNotDone, l, r);
    hide Sorted, RangePermutation, Marked, Words, Flags, Classified;
    QSort3(fmap, eclass, l, r);
    ghost var fm' := fmap[..];
    RowsStay(b, fm, fm', l, r);
    MarkHeaders(fmap, eclass, bhtab, l, r);
    BucketRefined(b, rank, fm0, fl0, fm, fl, fm', Flags(bhtab[..]), h, l, r);
  }

  lemma RowsStay(b: seq<Byte>, fm: seq<nat>, fm': seq<nat>, l: nat, r: nat)
    requires Rows(b, fm) && RangePermutation(fm, fm', l, r)
    ensures Rows(b, fm')
  {
    PermutationFacts(fm', |b|);
  }

  /** Finds the next bucket of several rows and refines it; `next` is the row after it. */
  method BucketStep(fmap: array<nat>, eclass: array<nat>, bhtab: array<nat>, nblock: nat, from: nat, nNotDone: nat,
                    ghost b: seq<Byte>, ghost fm0: seq<nat>, ghost fl0: seq<bool>, ghost h: nat)
    returns (done: bool, next: nat, nNotDone': nat)
    requires fmap != eclass && fmap != bhtab && eclass != bhtab
    requires fmap.Length == nblock == |b| <= MAX_BLOCK && Words(bhtab[..])
    requires MidPass(b, fm0, fl0, fmap[..], Flags(bhtab[..]), h, from, nNotDone) && Ranked(b, eclass[..], h)
    modifies fmap, bhtab
    ensures Words(bhtab[..])
    ensures MidPass(b, fm0, fl0, fmap[..], Flags(bhtab[..]), h, next, nNotDone')
    ensures if done then next == nblock else from < next <= nblock
  {
    hide MidPass, Sentinels, Ranked, Words, Bucket, Flags, Rows, Classified;
    MidPassReady(b, fm0, fl0, fmap[..], Flags(bhtab[..]), h, from, nNotDone);
    var l, r := NextBucket(bhtab, from, nblock);
    MidPassAdvance(b, fm0, fl0, fmap[..], Flags(bhtab[..]), h, from, nNotDone, l);
    if l >= nblock { return true, nblock, nNotDone; }
    RefineBucket(fmap, eclass, bhtab, l, r, nNotDone, b, fm0, fl0, h);
    done, next, nNotDone' := false, r + 1, nNotDone + (r - l + 1);
  }

  lemma MidPassStarts(b: seq<Byte>, fm0: seq<nat>, fl0: seq<bool>, h: nat)
    requires Rows(b, fm0) && Classified(b, fm0, fl0, h, |b|) && Sentinels(fl0, |b|) && 0 < |b| && h <= |b|
    ensures MidPass(b, fm0, fl0, fm0, fl0, h, 0, 0)
  {
  }

  lemma MidPassEnds(b: seq<Byte>, fm0: seq<nat>, fl0: seq<bool>, fm: seq<nat>, fl: seq<bool>, h: nat, nNotDone: nat)
    requires MidPass(b, fm0, fl0, fm, fl, h, |b|, nNotDone)
    ensures Rows(b, fm) && Classified(b, fm, fl, 2 * h, |b|) && Sentinels(fl, |b|)
    ensures nNotDone == 0 ==> AllHeaders(fl, |b|)
  {
    if nNotDone == 0 {
      AllHeadersKept(b, fm0, fl0, fm, fl, h);
    }
  }

  /** One doubling pass: rows classified by h characters become classified by 2h. */
  method Pass(fmap: array<nat>, eclass: array<nat>, bhtab: array<nat>, nblock: nat, h: nat, ghost b: seq<Byte>)
    returns (nNotDone: nat)
    requires fmap != eclass && fmap != bhtab && eclass != bhtab
    requires fmap.Length == nblock == |b| <= eclass.Length && 0 < nblock <= MAX_BLOCK && h <= nblock
    requires Words(bhtab[..]) && Sentinels(Flags(bhtab[..]), nblock)
    requires Rows(b, fmap[..]) && Classified(b, fmap[..], Flags(bhtab[..]), h, nblock)
    modifies fmap, eclass, bhtab
    ensures Words(bhtab[..]) && Sentinels(Flags(bhtab[..]), nblock)
    ensures Rows(b, fmap[..]) && Classified(b, fmap[..], Flags(bhtab[..]), 2 * h, nblock)
    ensures nNotDone == 0 ==> AllHeaders(Flags(bhtab[..]), nblock)
  {
    FillRanks(fmap, eclass, bhtab, nblock, h, b);
    ghost var fm0, fl0 := fmap[..], Flags(bhtab[..]);
    MidPassStarts(b, fm0, fl0, h);
    hide MidPass, Ranked, Words;
    var done, next: nat := false, 0;
    nNotDone := 0;
    while !done
      invariant Words(bhtab[..]) && Ranked(b, eclass[..], h) && next <= nblock && (done ==> next == nblock)
      invariant MidPass(b, fm0, fl0, fmap[..], Flags(bhtab[..]), h, next, nNotDone)
      decreases !done, nblock - next
    {
      done, next, nNotDone := BucketStep(fmap, eclass, bhtab, nblock, next, nNotDone, b, fm0, fl0, h);
    }
    MidPassEnds(b, fm0, fl0, fmap[..], Flags(bhtab[..]), h, nNotDone);
  }

  lemma AllHeadersKept(b: seq<Byte>, fm0: seq<nat>, fl0: seq<bool>, fm: seq<nat>, fl: seq<bool>, h: nat)
    requires Passing(b, fm0, fl0, fm, fl, h, |b|) && Classified(b, fm0, fl0, h, |b|) && h <= |b|
    requires AllHeaders(fl0, |b|)
    ensures AllHeaders(fl, |b|)
  {
    forall a | 0 < a < |b| ensures fl[a] {
      assert Key(b, fm0[a - 1], h) < Key(b, fm0[a], h);
      DoubleKey(b, fm[a - 1], fm[a], h);
    }
  }

  /** Enough characters compared, or no two rows alike: the rotations are sorted. */
  lemma ClassifiedEnough(b: seq<Byte>, fm: seq<nat>, fl: seq<bool>, h: nat)
    requires Rows(b, fm) && Classified(b, fm, fl, h, |b|)
    requires h > |b| || AllHeaders(fl, |b|)
    ensures SortedRotations(b, fm)
  {
    var n := |b|;
    forall i, j | 0 <= i < j < n ensures Key(b, fm[i], n) <= Key(b, fm[j], n) {
      ClassifiedSorted(b, fm, fl, h, n, i, j);
      if h > n {
        KeyOrder(b, fm[i], fm[j], n, h - n);
      } else {
        ClassifiedSorted(b, fm, fl, h, n, i, j - 1);
        assert Key(b, fm[j - 1], h) < Key(b, fm[j], h);
        KeyOrder(b, fm[i], fm[j], h, n - h);
      }
    }
  }

  /** First characters of the rows from row i on. */
  ghost function Column(b: seq<Byte>, fm: seq<nat>): (c: seq<Byte>)
    requires Rows(b, fm)
    ensures |c| == |b| && forall i :: 0 <= i < |b| ==> c[i] == b[fm[i]]
  {
    Gather(b, fm)
  }

  lemma FirstColumn(b: seq<Byte>, fm: seq<nat>)
    requires SortedRotations(b, fm)
    ensures Rows(b, fm) && multiset(Column(b, fm)) == multiset(b)
    ensures forall i, j :: 0 <= i < j < |b| ==> Column(b, fm)[i] <= Column(b, fm)[j]
  {
    GatherIota(b, fm);
    forall i, j | 0 <= i < j < |b| ensures b[fm[i]] <= b[fm[j]] {
      KeyHead(b, fm[i], fm[j], |b|);
    }
  }

  /** The counts still to be handed out, and the character now being handed out. */
  ghost predicate Restoring(col: seq<Byte>, counts: seq<nat>, i: nat, j: nat) {
    && |counts| == 256 && i <= |col| && j <= 256
    && (forall c: Byte :: counts[c] == multiset(col[i..])[c])
    && (forall c: Byte :: c < j ==> counts[c] == 0)
  }

  lemma NextToRestore(col: seq<Byte>, counts: seq<nat>, i: nat, j: nat)
    requires Restoring(col, counts, i, j) && i < |col|
    requires forall x, y :: 0 <= x < y < |col| ==> col[x] <= col[y]
    ensures j <= col[i] && counts[col[i]] > 0
    ensures j < 256 && counts[j] > 0 ==>
              col[i] == j && Restoring(col, counts[j := counts[j] - 1], i + 1, j)
  {
    assert col[i..][0] == col[i] && col[i] in multiset(col[i..]);
    assert col[i..] == [col[i]] + col[i + 1..];
    if j < 256 && counts[j] > 0 {
      assert j in multiset(col[i..]);
      var k :| 0 <= k < |col[i..]| && col[i..][k] == j;
      assert col[i + k] == j;
    }
  }

  method NextChar(ftabCopy: array<nat>, ghost i: nat, j0: nat, ghost col: seq<Byte>) returns (j: nat)
    requires ftabCopy.Length == 256 && Restoring(col, ftabCopy[..], i, j0) && i < |col|
    requires forall x, y :: 0 <= x < y < |col| ==> col[x] <= col[y]
    ensures j0 <= j < 256 && ftabCopy[j] > 0 && Restoring(col, ftabCopy[..], i, j)
  {
    j := j0;
    NextToRestore(col, ftabCopy[..], i, j);
    while ftabCopy[j] == 0
      invariant j0 <= j <= col[i] && Restoring(col, ftabCopy[..], i, j)
      decreases col[i] - j
    {
      j := j + 1;
      NextToRestore(col, ftabCopy[..], i, j);
    }
  }

  ghost predicate Restored(b: seq<Byte>, fm: seq<nat>, out: seq<Byte>, i: nat)
    requires Rows(b, fm)
  {
    |out| == |b| && i <= |b| && forall a :: 0 <= a < i ==> out[fm[a]] == b[fm[a]]
  }

  lemma RestoredStep(b: seq<Byte>, fm: seq<nat>, out: seq<Byte>, i: nat)
    requires Rows(b, fm) && Restored(b, fm, out, i) && i < |b|
    ensures Restored(b, fm, out[fm[i] := b[fm[i]]], i + 1)
  {
  }

  lemma AllRestored(b: seq<Byte>, fm: seq<nat>, out: seq<Byte>)
    requires Rows(b, fm) && Restored(b, fm, out, |b|)
    ensures out == b
  {
    forall p | 0 <= p < |b| ensures out[p] == b[p] {
      var a := PermutationHits(fm, |b|, p);
    }
  }

  /** Writes the block back from the sorted rows and the character counts. */
  method RestoreBlock(fmap: array<nat>, eclass: array<nat>, ftabCopy: array<nat>, nblock: nat, ghost b: seq<Byte>)
    requires fmap.Length == nblock == |b| <= 4 * eclass.Length && ftabCopy.Length == 256
    requires fmap != eclass && ftabCopy != fmap && ftabCopy != eclass
    requires SortedRotations(b, fmap[..])
    requires forall c: Byte :: ftabCopy[c] == multiset(b)[c]
    modifies eclass, ftabCopy
    ensures Bytes(eclass[..], nblock) == b
  {
    ghost var fm, col := fmap[..], Column(b, fmap[..]);
    FirstColumn(b, fm);
    assert col[0..] == col;
    hide Restoring, Bytes, SortedRotations, Column;
    var i: nat, j := 0, 0;
    while i < nblock
      invariant i <= nblock && fmap[..] == fm && Restoring(col, ftabCopy[..], i, j)
      invariant Restored(b, fm, Bytes(eclass[..], nblock), i)
    {
      j := NextChar(ftabCopy, i, j, col);
      NextToRestore(col, ftabCopy[..], i, j);
      RestoredStep(b, fm, Bytes(eclass[..], nblock), i);
      ftabCopy[j] := ftabCopy[j] - 1;
      SetByte(eclass, fmap[i], j, nblock);
      i := i + 1;
    }
    AllRestored(b, fm, Bytes(eclass[..], nblock));
  }

  ghost predicate StartsBelow(b: seq<Byte>, z: nat, i: nat) {
    exists c: Byte :: c < i && Below(b, c) == z
  }

  ghost predicate BucketStartsBelow(b: seq<Byte>, fl: seq<bool>, n: nat, i: nat) {
    n <= |fl| && forall z :: 0 <= z < n ==> (fl[z] <==> StartsBelow(b, z, i))
  }

  lemma StartsBelowStep(b: seq<Byte>, z: nat, i: nat, d: Byte)
    requires d == i
    ensures StartsBelow(b, z, i + 1) <==> StartsBelow(b, z, i) || Below(b, d) == z
  {
    hide Below;
    if StartsBelow(b, z, i + 1) {
      var c: Byte :| c < i + 1 && Below(b, c) == z;
      assert c == d || c < i;
    }
    if StartsBelow(b, z, i) {
      var c: Byte :| c < i && Below(b, c) == z;
      assert c < i + 1;
    }
    assert d < i + 1;
  }

  lemma NextBucketStart(b: seq<Byte>, fl: seq<bool>, n: nat, i: nat, d: Byte)
    requires BucketStartsBelow(b, fl, n, i) && d == i && Below(b, d) < |fl|
    ensures BucketStartsBelow(b, fl[Below(b, d) := true], n, i + 1)
  {
    var fl' := fl[Below(b, d) := true];
    forall z | 0 <= z < n ensures fl'[z] <==> StartsBelow(b, z, i + 1) {
      StartsBelowStep(b, z, i, d);
    }
  }

  lemma AllStarts(b: seq<Byte>, z: nat)
    ensures StartsBelow(b, z, 256) <==> StartsBucket(b, z)
  {
    hide Below;
    if StartsBucket(b, z) {
      var c: Byte :| Below(b, c) == z;
      assert c < 256;
    }
  }

  method MarkStarts(bhtab: array<nat>, ftab: array<nat>, nblock: nat, ghost b: seq<Byte>)
    requires |b| == nblock < 32 * bhtab.Length && Words(bhtab[..])
    requires ftab != bhtab && ftab.Length == 257
    requires forall c: Byte :: ftab[c] == Below(b, c)
    requires forall z :: 0 <= z < nblock ==> !Flags(bhtab[..])[z]
    modifies bhtab
    ensures Words(bhtab[..])
    ensures forall z :: 0 <= z < nblock ==> (Flags(bhtab[..])[z] <==> StartsBucket(b, z))
  {
    var i := 0;
    while i < 256
      invariant i <= 256 && Words(bhtab[..]) && ftab[..] == old(ftab[..])
      invariant BucketStartsBelow(b, Flags(bhtab[..]), nblock, i)
    {
      Buckets(b, i, i);
      NextBucketStart(b, Flags(bhtab[..]), nblock, i, i);
      Raise(bhtab, ftab[i]);
      i := i + 1;
    }
    forall z: nat ensures StartsBelow(b, z, 256) <==> StartsBucket(b, z) {
      AllStarts(b, z);
    }
  }

  /** Headers after the one-character bucket sort: bucket starts, then the sentinels. */
  method FirstHeaders(bhtab: array<nat>, ftab: array<nat>, nblock: nat, ghost b: seq<Byte>)
    requires |b| == nblock && nblock / 32 + 3 <= bhtab.Length && Words(bhtab[..])
    requires ftab != bhtab && ftab.Length == 257
    requires forall c: Byte :: ftab[c] == Below(b, c)
    modifies bhtab
    ensures Words(bhtab[..]) && Sentinels(Flags(bhtab[..]), nblock)
    ensures forall z :: 0 <= z < nblock ==> (Flags(bhtab[..])[z] <==> StartsBucket(b, z))
  {
    ClearWords(bhtab, 2 + nblock / 32);
    MarkStarts(bhtab, ftab, nblock, b);
    ghost var starts := Flags(bhtab[..]);
    var i := 0;
    while i < 32
      invariant i <= 32 && Words(bhtab[..])
      invariant Flags(bhtab[..])[..nblock] == starts[..nblock]
      invariant i > 0 ==> Sentinels(Flags(bhtab[..]), nblock)
    {
      Raise(bhtab, nblock + 2 * i);
      Lower(bhtab, nblock + 2 * i + 1);
      i := i + 1;
    }
    assert forall z :: 0 <= z < nblock ==> Flags(bhtab[..])[z] == starts[..nblock][z];
  }

  method ClearWords(bhtab: array<nat>, n: nat)
    requires n <= bhtab.Length && Words(bhtab[..])
    modifies bhtab
    ensures Words(bhtab[..])
    ensures forall z :: 0 <= z < 32 * n ==> !Flags(bhtab[..])[z]
  {
    var i := 0;
    while i < n
      invariant i <= n && Words(bhtab[..])
      invariant forall k :: 0 <= k < i ==> bhtab[k] == 0
    {
      bhtab[i] := 0;
      i := i + 1;
    }
    forall k: nat ensures !Bit(0, k) {
      ZeroBit(k);
    }
  }

  lemma {:induction false} ZeroBit(k: nat)
    ensures !Bit(0, k)
  {
    if k > 0 {
      ZeroBit(k - 1);
    }
  }

  lemma FirstClassified(b: seq<Byte>, fm: seq<nat>, fl: seq<bool>)
    requires Bucketed(b, fm) && |b| <= |fl| && |b| > 0
    requires forall z :: 0 <= z < |b| ==> (fl[z] <==> StartsBucket(b, z))
    ensures Rows(b, fm) && Classified(b, fm, fl, 1, |b|)
  {
    assert Below(b, 0) == 0 && StartsBucket(b, 0);
    forall i | 0 <= i < |b| ensures Key(b, i, 1) == b[i] {
      assert Pow256(0) == 1;
    }
    forall a | 0 < a < |b|
      ensures Key(b, fm[a - 1], 1) <= Key(b, fm[a], 1) && (fl[a] <==> Key(b, fm[a - 1], 1) < Key(b, fm[a], 1))
    {
      BucketEdges(b, fm, a);
    }
  }

  /** The doubling loop. */
  method DoublingLoop(fmap: array<nat>, eclass: array<nat>, bhtab: array<nat>, nblock: nat, ghost b: seq<Byte>)
    requires fmap != eclass && fmap != bhtab && eclass != bhtab
    requires fmap.Length == nblock == |b| <= eclass.Length && 0 < nblock <= MAX_BLOCK
    requires Words(bhtab[..]) && Sentinels(Flags(bhtab[..]), nblock)
    requires Rows(b, fmap[..]) && Classified(b, fmap[..], Flags(bhtab[..]), 1, nblock)
    modifies fmap, eclass, bhtab
    ensures SortedRotations(b, fmap[..])
  {
    hide Rows, Classified, Sentinels, Words, AllHeaders;
    var h: nat, nNotDone := 1, 1;
    while h <= nblock && nNotDone != 0
      invariant Words(bhtab[..]) && Sentinels(Flags(bhtab[..]), nblock) && h > 0
      invariant Rows(b, fmap[..]) && Classified(b, fmap[..], Flags(bhtab[..]), h, nblock)
      invariant nNotDone == 0 ==> AllHeaders(Flags(bhtab[..]), nblock)
      decreases nblock + 1 - h
    {
      nNotDone := Pass(fmap, eclass, bhtab, nblock, h, b);
      h := h * 2;
    }
    ClassifiedEnough(b, fmap[..], Flags(bhtab[..]), h);
  }

  /**
   * Sorts the rotations of the block held in the bytes of eclass. The block is
   * destroyed on the way, its words being used for ranks, and written back at the end.
   */
  method FallbackSort(fmap: array<nat>, eclass: array<nat>, bhtab: array<nat>, nblock: nat)
    requires fmap != eclass && fmap != bhtab && eclass != bhtab
    requires fmap.Length == nblock <= eclass.Length && 0 < nblock <= MAX_BLOCK
    requires nblock / 32 + 3 <= bhtab.Length && Words(bhtab[..])
    modifies fmap, eclass, bhtab
    ensures Bytes(eclass[..], nblock) == old(Bytes(eclass[..], nblock))
    ensures SortedRotations(old(Bytes(eclass[..], nblock)), fmap[..])
  {
    ghost var b := Bytes(eclass[..], nblock);
    var ftab := CountBytes(eclass, nblock, b);
    var ftabCopy := CopyCounts(ftab);
    Accumulate(ftab, b);
    FillBuckets(fmap, eclass, ftab, nblock, b);
    FirstHeaders(bhtab, ftab, nblock, b);
    FirstClassified(b, fmap[..], Flags(bhtab[..]));
    DoublingLoop(fmap, eclass, bhtab, nblock, b);
    RestoreBlock(fmap, eclass, ftabCopy, nblock, b);
  }

  /** Finds the row holding the block itself; every sorted list of rotations has one. */
  method FindOrigPtr(ptr: array<nat>, nblock: nat, ghost b: seq<Byte>) returns (origPtr: int)
    requires ptr.Length == nblock == |b| && nblock > 0 && SortedRotations(b, ptr[..])
    ensures 0 <= origPtr < nblock && ptr[origPtr] == 0
  {
    ghost var k := PermutationHits(ptr[..], nblock, 0);
    origPtr := -1;
    var i := 0;
    while i < nblock
      invariant i <= nblock && forall j :: 0 <= j < i ==> ptr[j] != 0
    {
      if ptr[i] == 0 {
        origPtr := i;
        break;
      }
      i := i + 1;
    }
  }
}
