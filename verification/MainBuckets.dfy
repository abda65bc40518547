/** The two-character bucket sort that starts the main sort. */
module MainBuckets {
  import opened Permutations
  import opened Rotations
  import opened RadixPass
  import opened SegmentSort
  import opened MainCompare

  const PAIRS := 65536

  /** The first two characters of every rotation. */
  ghost function Pairs(b: seq<Byte>): (r: seq<nat>)
    ensures |r| == |b| && forall p :: 0 <= p < |b| ==> r[p] == Key(b, p, 2)
  {
    seq(|b|, p requires 0 <= p < |b| => Key(b, p, 2))
  }

  lemma PairAt(b: seq<Byte>, p: nat)
    requires p < |b|
    ensures Pairs(b)[p] == 256 * b[p] + b[Next(|b|, p)] < PAIRS
  {
    assert Pow256(1) == 256 * Pow256(0) && Pow256(0) == 1;
    assert Key(b, Next(|b|, p), 1) == b[Next(|b|, p)] * Pow256(0) + Key(b, Next(|b|, Next(|b|, p)), 0);
  }

  /** Where the bucket of pair v starts. */
  ghost function Start(b: seq<Byte>, v: nat): nat {
    Below(Pairs(b), v)
  }

  lemma StartNext(b: seq<Byte>, v: nat)
    ensures Start(b, v + 1) == Start(b, v) + multiset(Pairs(b))[v]
  {
  }

  lemma StartMonotone(b: seq<Byte>, v: nat, w: nat)
    requires v <= w
    ensures Start(b, v) <= Start(b, w)
  {
    BelowMonotone(Pairs(b), v, w);
  }

  lemma StartEnds(b: seq<Byte>, v: nat)
    ensures Start(b, 0) == 0 && Start(b, PAIRS) == |b| && (v <= PAIRS ==> Start(b, v) <= |b|)
  {
    forall i | 0 <= i < |b| ensures 0 <= Pairs(b)[i] < PAIRS {
      PairAt(b, i);
    }
    BelowAll(Pairs(b), PAIRS);
    if v <= PAIRS {
      StartMonotone(b, v, PAIRS);
    }
  }

  /** Place k is in the bucket of v. */
  ghost predicate In(b: seq<Byte>, v: nat, k: int) {
    Start(b, v) <= k < Start(b, v + 1)
  }

  lemma InOne(b: seq<Byte>, v: nat, w: nat, k: int)
    requires In(b, v, k)
    ensures In(b, w, k) ==> v == w
    ensures v < w ==> k < Start(b, w)
    ensures k >= Start(b, w) <==> w <= v
  {
    if v < w {
      StartMonotone(b, v + 1, w);
    } else if w < v {
      StartMonotone(b, w + 1, v);
    }
  }

  // ---- Counting ----

  lemma SuffixCount(keys: seq<nat>, i: nat, v: nat)
    requires i < |keys|
    ensures multiset(keys[i..])[v] == multiset(keys[i + 1..])[v] + if keys[i] == v then 1 else 0
    ensures multiset(keys[i..])[v] <= multiset(keys)[v]
  {
    assert keys[i..] == [keys[i]] + keys[i + 1..];
    assert keys == keys[..i] + keys[i..];
  }

  ghost predicate Counted(keys: seq<nat>, ftab: seq<nat>, i: nat) {
    i <= |keys| && |ftab| == PAIRS + 1 && forall v :: 0 <= v <= PAIRS ==> ftab[v] == multiset(keys[i..])[v]
  }

  lemma CountedStep(keys: seq<nat>, ftab: seq<nat>, i: nat)
    requires Counted(keys, ftab, i + 1) && keys[i] < PAIRS
    ensures Counted(keys, ftab[keys[i] := ftab[keys[i]] + 1], i)
  {
    var next := ftab[keys[i] := ftab[keys[i]] + 1];
    forall v | 0 <= v <= PAIRS ensures next[v] == multiset(keys[i..])[v] {
      SuffixCount(keys, i, v);
    }
  }

  /** The block stands at the start of the array. */
  ghost predicate Holds(b: seq<Byte>, block: seq<nat>) {
    |block| == |b| + OVERSHOOT && |b| > OVERSHOOT && forall i :: 0 <= i < |b| ==> block[i] == b[i]
  }

  /** The upper half of j is the character behind i. */
  ghost predicate CharBehindIs(b: seq<Byte>, i: nat, j: nat) {
    0 < i <= |b| && j < PAIRS && j / 256 == b[if i == |b| then 0 else i]
  }

  /** Moving one character on in front of j gives the pair at i - 1. */
  lemma NextPair(b: seq<Byte>, block: seq<nat>, i: nat, j: nat)
    requires Holds(b, block) && CharBehindIs(b, i, j)
    ensures i <= |b| < |block| && j / 256 + block[i - 1] * 256 == Pairs(b)[i - 1] < PAIRS
    ensures i > 1 ==> CharBehindIs(b, i - 1, j / 256 + block[i - 1] * 256)
  {
    PairAt(b, i - 1);
  }

  /** Counts the pairs of characters and clears the quadrants. */
  method CountPairs(block: array<nat>, quadrant: array<nat>, ftab: array<nat>, nblock: nat, ghost b: seq<Byte>)
    requires Holds(b, block[..]) && nblock == |b| && quadrant.Length == nblock + OVERSHOOT && ftab.Length == PAIRS + 1
    requires block != quadrant && block != ftab && quadrant != ftab
    modifies quadrant, ftab
    ensures Counted(Pairs(b), ftab[..], 0) && forall i :: 0 <= i < nblock ==> quadrant[i] == 0
  {
    hide Pairs, Counted, Holds, CharBehindIs;
    ClearTable(ftab, Pairs(b));
    var j: nat := HighHalf(block, b);
    var i: nat := nblock;
    while i > 0
      invariant i <= nblock && (i > 0 ==> CharBehindIs(b, i, j))
      invariant Counted(Pairs(b), ftab[..], i) && forall k :: i <= k < nblock ==> quadrant[k] == 0
    {
      NextPair(b, block[..], i, j);
      i := i - 1;
      quadrant[i] := 0;
      assert block[..][i] == block[i];
      j := j / 256 + block[i] * 256;
      CountedStep(Pairs(b), ftab[..], i);
      CountedAt(Pairs(b), ftab[..], i + 1);
      ghost var was := ftab[..];
      ftab[j] := ftab[j] + 1;
      assert ftab[..] == was[j := was[j] + 1];
    }
  }

  lemma CountedAt(keys: seq<nat>, ftab: seq<nat>, i: nat)
    requires Counted(keys, ftab, i)
    ensures |ftab| == PAIRS + 1
  {
  }

  method HighHalf(block: array<nat>, ghost b: seq<Byte>) returns (j: nat)
    requires Holds(b, block[..])
    ensures CharBehindIs(b, |b|, j)
  {
    assert block[..][0] == block[0];
    j := block[0] * 256;
  }

  method ClearTable(ftab: array<nat>, ghost keys: seq<nat>)
    requires ftab.Length == PAIRS + 1
    modifies ftab
    ensures Counted(keys, ftab[..], |keys|)
  {
    var i: nat := ftab.Length;
    while i > 0
      invariant i <= ftab.Length && forall v :: i <= v < ftab.Length ==> ftab[v] == 0
    {
      i := i - 1;
      ftab[i] := 0;
    }
  }

  /** Repeats the first characters behind the block. */
  method Overshoot(block: array<nat>, quadrant: array<nat>, nblock: nat, ghost b: seq<Byte>)
    requires Holds(b, block[..]) && nblock == |b| && quadrant.Length == nblock + OVERSHOOT && block != quadrant
    requires forall i :: 0 <= i < nblock ==> quadrant[i] == 0
    modifies block, quadrant
    ensures BlockIs(b, block[..]) && forall i :: 0 <= i < quadrant.Length ==> quadrant[i] == 0
  {
    assert forall k :: 0 <= k < nblock ==> block[..][k] == b[k];
    var i := 0;
    while i < OVERSHOOT
      invariant 0 <= i <= OVERSHOOT && (forall k :: 0 <= k < nblock ==> block[k] == b[k])
      invariant forall k :: nblock <= k < nblock + i ==> block[k] == b[k - nblock]
      invariant forall k :: 0 <= k < nblock + i ==> quadrant[k] == 0
    {
      block[nblock + i] := block[i];
      quadrant[nblock + i] := 0;
      i := i + 1;
    }
  }

  /** Turns counts into bucket ends by running sums. */
  method SumCounts(ftab: array<nat>, ghost b: seq<Byte>)
    requires Counted(Pairs(b), ftab[..], 0)
    modifies ftab
    ensures ftab.Length == PAIRS + 1 && forall v :: 0 <= v <= PAIRS ==> ftab[v] == Start(b, v + 1)
  {
    hide Pairs, Start;
    CountedAll(Pairs(b), ftab[..]);
    StartNext(b, 0);
    StartEnds(b, 0);
    var i := 1;
    while i <= PAIRS
      invariant 1 <= i <= PAIRS + 1
      invariant forall v :: i <= v <= PAIRS ==> ftab[v] == multiset(Pairs(b))[v]
      invariant forall v :: 0 <= v < i ==> ftab[v] == Start(b, v + 1)
    {
      StartNext(b, i);
      ftab[i] := ftab[i] + ftab[i - 1];
      i := i + 1;
    }
  }

  lemma CountedAll(keys: seq<nat>, ftab: seq<nat>)
    requires Counted(keys, ftab, 0)
    ensures |ftab| == PAIRS + 1 && forall v :: 0 <= v <= PAIRS ==> ftab[v] == multiset(keys)[v]
  {
    assert keys[0..] == keys;
  }

  // ---- Placing ----

  /**
   * Positions from i on have been put: p sits at pos[p] in the bucket of its pair, and ftab[v] is the lowest
   * place taken in bucket v.
   */
  ghost predicate PlacedFrom(b: seq<Byte>, ftab: seq<nat>, ptr: seq<nat>, pos: seq<nat>, i: nat) {
    && |pos| == |b| == |ptr| && i <= |b| && |ftab| == PAIRS + 1
    && (forall v :: 0 <= v < PAIRS ==> ftab[v] == Start(b, v + 1) - multiset(Pairs(b)[i..])[v])
    && forall p :: i <= p < |b| ==> PlacedAt(b, ftab, ptr, pos, p)
  }

  ghost predicate PlacedAt(b: seq<Byte>, ftab: seq<nat>, ptr: seq<nat>, pos: seq<nat>, p: nat)
    requires p < |b| == |pos| == |ptr| && |ftab| == PAIRS + 1
  {
    var v := Pairs(b)[p];
    v < PAIRS && In(b, v, pos[p]) && ftab[v] <= pos[p] < |b| && ptr[pos[p]] == p
  }

  lemma PlaceCounts(b: seq<Byte>, ftab: seq<nat>, i: nat)
    requires i < |b| && |ftab| == PAIRS + 1 && Pairs(b)[i] < PAIRS
    requires forall v :: 0 <= v < PAIRS ==> ftab[v] == Start(b, v + 1) - multiset(Pairs(b)[i + 1..])[v]
    ensures var v := Pairs(b)[i]; 0 < ftab[v] <= |b| && In(b, v, ftab[v] - 1)
    ensures forall v :: 0 <= v < PAIRS ==>
              ftab[Pairs(b)[i] := ftab[Pairs(b)[i]] - 1][v] == Start(b, v + 1) - multiset(Pairs(b)[i..])[v]
  {
    hide Pairs, Start;
    var v := Pairs(b)[i];
    forall w | 0 <= w < PAIRS ensures multiset(Pairs(b)[i..])[w] == multiset(Pairs(b)[i + 1..])[w] + if v == w then 1 else 0 {
      SuffixCount(Pairs(b), i, w);
    }
    SuffixCount(Pairs(b), i, v);
    StartNext(b, v);
    StartEnds(b, v + 1);
  }

  lemma PlaceStep(b: seq<Byte>, ftab: seq<nat>, ptr: seq<nat>, pos: seq<nat>, i: nat)
    requires PlacedFrom(b, ftab, ptr, pos, i + 1) && i < |b|
    ensures |ftab| == PAIRS + 1 && |ptr| == |b| == |pos| && Pairs(b)[i] < PAIRS && 0 < ftab[Pairs(b)[i]] <= |b|
    ensures var v := Pairs(b)[i]; var k: nat := ftab[v] - 1;
            PlacedFrom(b, ftab[v := k], ptr[k := i], pos[i := k], i)
  {
    hide Pairs, Start, In;
    PairAt(b, i);
    PlaceCounts(b, ftab, i);
    var v := Pairs(b)[i];
    var k: nat := ftab[v] - 1;
    var ftab', ptr', pos' := ftab[v := k], ptr[k := i], pos[i := k];
    forall p | i <= p < |b| ensures PlacedAt(b, ftab', ptr', pos', p) {
      if p > i {
        assert PlacedAt(b, ftab, ptr, pos, p);
        InOne(b, v, Pairs(b)[p], k);
      }
    }
  }

  /** s lists the rotations by their first two characters. */
  ghost predicate InPairs(b: seq<Byte>, s: seq<nat>) {
    && |s| == |b| && IsPermutation(s, |b|) && InRange(s, |b|)
    && forall k :: 0 <= k < |b| ==> In(b, Pairs(b)[s[k]], k)
  }

  lemma PlacedAll(b: seq<Byte>, ftab: seq<nat>, ptr: seq<nat>, pos: seq<nat>)
    requires PlacedFrom(b, ftab, ptr, pos, 0)
    ensures InPairs(b, ptr)
    ensures forall v :: 0 <= v < PAIRS ==> ftab[v] == Start(b, v)
  {
    hide Pairs, Start;
    assert Pairs(b)[0..] == Pairs(b);
    forall v | 0 <= v < PAIRS ensures ftab[v] == Start(b, v) {
      StartNext(b, v);
    }
    forall p | 0 <= p < |b| ensures pos[p] < |b| && ptr[pos[p]] == p {
      assert PlacedAt(b, ftab, ptr, pos, p);
    }
    InverseIsPermutation(ptr, pos, |b|);
    forall k | 0 <= k < |b| ensures In(b, Pairs(b)[ptr[k]], k) {
      assert PlacedAt(b, ftab, ptr, pos, ptr[k]);
    }
  }

  lemma PlacedNone(b: seq<Byte>, ftab: seq<nat>, ptr: seq<nat>, pos: seq<nat>)
    requires |pos| == |b| == |ptr| && |ftab| == PAIRS + 1 && forall v :: 0 <= v < PAIRS ==> ftab[v] == Start(b, v + 1)
    ensures PlacedFrom(b, ftab, ptr, pos, |b|)
  {
    hide Pairs, Start;
    assert Pairs(b)[|b|..] == [];
  }

  /** Drops every position into the bucket of its pair, the last one first. */
  method PlacePairs(ptr: array<nat>, block: array<nat>, ftab: array<nat>, nblock: nat, ghost b: seq<Byte>)
    requires ptr != block && ptr != ftab && block != ftab && Holds(b, block[..]) && nblock == |b| == ptr.Length
    requires ftab.Length == PAIRS + 1 && forall v :: 0 <= v <= PAIRS ==> ftab[v] == Start(b, v + 1)
    modifies ptr, ftab
    ensures InPairs(b, ptr[..]) && forall v :: 0 <= v <= PAIRS ==> ftab[v] == Start(b, v)
  {
    hide Pairs, Start, PlacedFrom, Holds, CharBehindIs, InPairs;
    ghost var pos: seq<nat> := Iota(nblock);
    PlacedNone(b, ftab[..], ptr[..], pos);
    var s: nat := HighHalf(block, b);
    var i: nat := nblock;
    while i > 0
      invariant i <= nblock && (i > 0 ==> CharBehindIs(b, i, s))
      invariant PlacedFrom(b, ftab[..], ptr[..], pos, i) && ftab[PAIRS] == old(ftab[PAIRS])
    {
      NextPair(b, block[..], i, s);
      i := i - 1;
      assert block[..][i] == block[i];
      s := s / 256 + block[i] * 256;
      PlaceStep(b, ftab[..], ptr[..], pos, i);
      ghost var ftab0, ptr0 := ftab[..], ptr[..];
      var j: nat := ftab[s] - 1;
      ftab[s] := j;
      ptr[j] := i;
      pos := pos[i := j];
      assert ftab[..] == ftab0[s := j] && ptr[..] == ptr0[j := i];
    }
    PlacedAll(b, ftab[..], ptr[..], pos);
    EndPair(b);
  }

  lemma EndPair(b: seq<Byte>)
    ensures Start(b, PAIRS + 1) == Start(b, PAIRS)
  {
    forall i | 0 <= i < |b| ensures 0 <= Pairs(b)[i] < PAIRS {
      PairAt(b, i);
    }
    BelowAll(Pairs(b), PAIRS);
    BelowAll(Pairs(b), PAIRS + 1);
  }
}
