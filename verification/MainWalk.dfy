/** Listing the rotations that start with one character from those a step further on. */
module MainWalk {
  import opened Permutations
  import opened Rotations
  import opened SegmentSort
  import opened MainCompare
  import opened MainSimple
  import opened MainBuckets

  // ---- Rotations and the ones a step further on ----

  /** The ranks of two rotations behind one character are as those a step further on. */
  ghost predicate Steps(b: seq<Byte>, rank: seq<nat>, p: nat, q: nat)
    requires p < |b| == |rank| && q < |b|
  {
    b[p] == b[q] ==> (rank[p] <= rank[q] <==> rank[Next(|b|, p)] <= rank[Next(|b|, q)])
  }

  /** The rotation p ranks behind the one a step further on. */
  ghost predicate Falls(b: seq<Byte>, rank: seq<nat>, p: nat) {
    p < |b| == |rank| && rank[p] > rank[Next(|b|, p)]
  }

  /** Falling rotations that leave their character rank before falling ones that stay with it. */
  ghost predicate Leaves(b: seq<Byte>, rank: seq<nat>, p: nat, q: nat) {
    && p < |b| == |rank| && q < |b|
    && (b[p] == b[q] == b[Next(|b|, q)] && b[Next(|b|, p)] != b[p] && Falls(b, rank, p) ==> rank[p] <= rank[q])
  }

  ghost predicate Ranking(b: seq<Byte>, rank: seq<nat>) {
    |rank| == |b| && forall p, q :: 0 <= p < |b| && 0 <= q < |b| ==> Steps(b, rank, p, q) && Leaves(b, rank, p, q)
  }

  lemma RankingAt(b: seq<Byte>, rank: seq<nat>, p: nat, q: nat)
    requires Ranking(b, rank) && p < |b| && q < |b|
    ensures |rank| == |b| && Steps(b, rank, p, q) && Leaves(b, rank, p, q)
  {
  }

  ghost function FromAbove(b: seq<Byte>, p: nat): nat
    requires p < |b|
  {
    KeyBound(b, p, |b|);
    Pow256(|b|) - Key(b, p, |b|)
  }

  /** The ranks seen from the other end. */
  ghost function Down(b: seq<Byte>): (r: seq<nat>)
    ensures |r| == |b| && forall p :: 0 <= p < |b| ==> r[p] == Pow256(|b|) - Keys(b)[p]
  {
    seq(|b|, p requires 0 <= p < |b| => FromAbove(b, p))
  }

  lemma KeyOne(b: seq<Byte>, p: nat)
    requires p < |b|
    ensures Key(b, p, 1) == b[p] && Pow256(1) == 256
  {
    assert Pow256(0) == 1;
  }

  /** A key, and that of the rotation a step further on, by what they share. */
  lemma KeyShift(b: seq<Byte>, p: nat)
    requires p < |b|
    ensures var k := Key(b, Next(|b|, p), |b| - 1);
            Key(b, p, |b|) == b[p] * Pow256(|b| - 1) + k && Key(b, Next(|b|, p), |b|) == 256 * k + b[p]
  {
    hide Key, Pow256;
    var n := |b|;
    KeySplit(b, Next(n, p), n - 1, 1);
    assert Advance(n, Next(n, p), n - 1) == p;
    KeyOne(b, p);
    KeySplit(b, p, 1, n - 1);
  }

  lemma KeysStep(b: seq<Byte>, p: nat, q: nat)
    requires p < |b| && q < |b|
    ensures Steps(b, Keys(b), p, q)
  {
    hide Key;
    KeyShift(b, p);
    KeyShift(b, q);
  }

  /** A rotation falls if its character is greater than the next, and rises if it is less. */
  lemma FallsAtOnce(b: seq<Byte>, p: nat)
    requires p < |b|
    ensures b[p] > b[Next(|b|, p)] ==> Falls(b, Keys(b), p) && !Falls(b, Down(b), p)
    ensures b[p] < b[Next(|b|, p)] ==> Falls(b, Down(b), p) && !Falls(b, Keys(b), p)
  {
    hide Key;
    FirstDecides(b, p, Next(|b|, p));
    FirstDecides(b, Next(|b|, p), p);
  }

  lemma KeysRank(b: seq<Byte>)
    ensures Ranking(b, Keys(b)) && Ranking(b, Down(b))
  {
    hide Key;
    forall p, q | 0 <= p < |b| && 0 <= q < |b|
      ensures Steps(b, Keys(b), p, q) && Leaves(b, Keys(b), p, q) && Steps(b, Down(b), p, q) && Leaves(b, Down(b), p, q)
    {
      KeysStep(b, p, q);
      KeysStep(b, q, p);
      FallsAtOnce(b, p);
      FirstDecides(b, Next(|b|, p), Next(|b|, q));
      FirstDecides(b, Next(|b|, q), Next(|b|, p));
    }
  }

  /** Behind its own character a rotation falls if the one a step further on does. */
  lemma FallsBehind(b: seq<Byte>, rank: seq<nat>, p: nat)
    requires Ranking(b, rank) && p < |b| && b[p] == b[Next(|b|, p)]
    ensures Falls(b, rank, p) <==> Falls(b, rank, Next(|b|, p))
  {
    RankingAt(b, rank, p, Next(|b|, p));
  }

  // ---- The rotations a step back ----

  /** The rotations a step before those listed that start with t. */
  ghost function Behind(b: seq<Byte>, w: seq<nat>, t: nat): (r: seq<nat>)
    requires InRange(w, |b|)
  {
    if w == [] then [] else
      var k := Prev(|b|, w[|w| - 1]);
      Behind(b, w[..|w| - 1], t) + if b[k] == t then [k] else []
  }

  lemma BehindNext(b: seq<Byte>, w: seq<nat>, m: nat, t: nat)
    requires InRange(w, |b|) && m < |w|
    ensures InRange(w[..m], |b|) && InRange(w[..m + 1], |b|)
    ensures var k := Prev(|b|, w[m]);
            Behind(b, w[..m + 1], t) == if b[k] == t then Behind(b, w[..m], t) + [k] else Behind(b, w[..m], t)
  {
    assert w[..m + 1][..m] == w[..m];
  }

  lemma {:induction false} BehindAt(b: seq<Byte>, w: seq<nat>, t: nat, i: nat) returns (k: nat)
    requires InRange(w, |b|) && i < |Behind(b, w, t)|
    ensures k < |w| && Behind(b, w, t)[i] == Prev(|b|, w[k]) && b[Prev(|b|, w[k])] == t
  {
    var v := w[..|w| - 1];
    if i < |Behind(b, v, t)| {
      k := BehindAt(b, v, t, i);
    } else {
      k := |w| - 1;
    }
  }

  /** The order of the list is kept. */
  lemma {:induction false} BehindTwo(b: seq<Byte>, w: seq<nat>, t: nat, i: nat, j: nat) returns (k: nat, m: nat)
    requires InRange(w, |b|) && i < j < |Behind(b, w, t)|
    ensures k < m < |w| && Behind(b, w, t)[i] == Prev(|b|, w[k]) && Behind(b, w, t)[j] == Prev(|b|, w[m])
    ensures b[Prev(|b|, w[k])] == t == b[Prev(|b|, w[m])]
  {
    var v := w[..|w| - 1];
    if j < |Behind(b, v, t)| {
      k, m := BehindTwo(b, v, t, i, j);
    } else {
      k := BehindAt(b, v, t, i);
      m := |w| - 1;
    }
  }

  /** Nothing is left out. */
  lemma {:induction false} BehindHas(b: seq<Byte>, w: seq<nat>, t: nat, k: nat)
    requires InRange(w, |b|) && k < |w| && b[Prev(|b|, w[k])] == t
    ensures Prev(|b|, w[k]) in Behind(b, w, t)
  {
    if k < |w| - 1 {
      BehindHas(b, w[..|w| - 1], t, k);
    }
  }

  // ---- The walk ----

  ghost predicate Distinct(s: seq<nat>) {
    forall i, j :: 0 <= i < j < |s| ==> s[i] != s[j]
  }

  ghost predicate Ascends(rank: seq<nat>, s: seq<nat>)
    requires InRange(s, |rank|)
  {
    forall i, j :: 0 <= i < j < |s| ==> rank[s[i]] <= rank[s[j]]
  }

  ghost predicate AllFall(b: seq<Byte>, rank: seq<nat>, c: nat, s: seq<nat>) {
    forall i :: 0 <= i < |s| ==> s[i] < |b| && b[s[i]] == c && Falls(b, rank, s[i])
  }

  /** The falling rotations with c at the start and another character behind it, in order. */
  ghost predicate Firsts(b: seq<Byte>, rank: seq<nat>, c: nat, x: seq<nat>) {
    && |rank| == |b| && InRange(x, |b|) && AllFall(b, rank, c, x) && Distinct(x) && Ascends(rank, x)
    && (forall i :: 0 <= i < |x| ==> b[Next(|b|, x[i])] != c)
    && forall p :: 0 <= p < |b| && b[p] == c && b[Next(|b|, p)] != c && Falls(b, rank, p) ==> p in x
  }

  /** w lists falling rotations with c at the start, having been read up to m. */
  ghost predicate Walking(b: seq<Byte>, rank: seq<nat>, c: nat, x: seq<nat>, w: seq<nat>, m: nat) {
    && |rank| == |b| && InRange(w, |b|) && m <= |w| && w == x + Behind(b, w[..m], c)
    && AllFall(b, rank, c, w) && Distinct(w) && Ascends(rank, w)
  }

  lemma WalkStarts(b: seq<Byte>, rank: seq<nat>, c: nat, x: seq<nat>)
    requires Firsts(b, rank, c, x)
    ensures Walking(b, rank, c, x, x, 0)
  {
  }

  /** What the walk adds has not been listed before and ranks behind all that was. */
  lemma WalkAdds(b: seq<Byte>, rank: seq<nat>, c: nat, x: seq<nat>, w: seq<nat>, m: nat, i: nat)
    requires Ranking(b, rank) && Firsts(b, rank, c, x) && Walking(b, rank, c, x, w, m) && m < |w| && i < |w|
    requires b[Prev(|b|, w[m])] == c
    ensures w[i] != Prev(|b|, w[m]) && rank[w[i]] <= rank[Prev(|b|, w[m])]
  {
    var p := Prev(|b|, w[m]);
    assert Next(|b|, p) == w[m];
    if i < |x| {
      assert w[i] == x[i];
      RankingAt(b, rank, x[i], p);
    } else {
      var k := BehindAt(b, w[..m], c, i - |x|);
      assert w[i] == Prev(|b|, w[k]) && Next(|b|, w[i]) == w[k];
      RankingAt(b, rank, w[i], p);
    }
  }

  lemma WalkStep(b: seq<Byte>, rank: seq<nat>, c: nat, x: seq<nat>, w: seq<nat>, m: nat)
    requires Ranking(b, rank) && Firsts(b, rank, c, x) && Walking(b, rank, c, x, w, m) && m < |w|
    ensures var p := Prev(|b|, w[m]);
            Walking(b, rank, c, x, if b[p] == c then w + [p] else w, m + 1)
  {
    hide Ranking, Firsts, Behind;
    var p := Prev(|b|, w[m]);
    BehindNext(b, w, m, c);
    if b[p] == c {
      assert Next(|b|, p) == w[m];
      FallsBehind(b, rank, p);
      var w' := w + [p];
      assert w'[..m + 1] == w[..m + 1];
      assert w' == x + (Behind(b, w[..m], c) + [p]);
      forall i | 0 <= i < |w| ensures w[i] != p && rank[w[i]] <= rank[p] {
        WalkAdds(b, rank, c, x, w, m, i);
      }
    }
  }

  /** At its end the walk has listed every falling rotation that starts with c. */
  lemma {:induction false} WalkEnds(b: seq<Byte>, rank: seq<nat>, c: nat, x: seq<nat>, w: seq<nat>, p: nat)
    requires Ranking(b, rank) && Firsts(b, rank, c, x) && Walking(b, rank, c, x, w, |w|)
    requires p < |b| && b[p] == c && Falls(b, rank, p)
    ensures p in w
    decreases rank[p]
  {
    if b[Next(|b|, p)] != c {
      assert p in x;
    } else {
      FallsBehind(b, rank, p);
      var q := Next(|b|, p);
      WalkEnds(b, rank, c, x, w, q);
      var k :| 0 <= k < |w| && w[k] == q;
      assert Prev(|b|, q) == p && w[..|w|] == w;
      BehindHas(b, w, c, k);
    }
  }

  // ---- The rotations a step back from a walk ----

  /** s lists different rotations with the pair v at the start. */
  ghost predicate OfPair(b: seq<Byte>, v: nat, s: seq<nat>) {
    InRange(s, |b|) && Distinct(s) && forall i :: 0 <= i < |s| ==> Pairs(b)[s[i]] == v
  }

  lemma BehindOfPair(b: seq<Byte>, rank: seq<nat>, c: nat, x: seq<nat>, w: seq<nat>, m: nat, n: nat, t: nat)
    requires Ranking(b, rank) && Walking(b, rank, c, x, w, n) && m <= |w| && t < 256
    ensures InRange(w[..m], |b|) && OfPair(b, 256 * t + c, Behind(b, w[..m], t)) && Ascends(rank, Behind(b, w[..m], t))
  {
    var v := w[..m];
    var s := Behind(b, v, t);
    forall i | 0 <= i < |s| ensures s[i] < |b| && Pairs(b)[s[i]] == 256 * t + c {
      var k := BehindAt(b, v, t, i);
      assert Next(|b|, s[i]) == w[k];
      PairAt(b, s[i]);
    }
    forall i, j | 0 <= i < j < |s| ensures s[i] != s[j] && rank[s[i]] <= rank[s[j]] {
      var k, l := BehindTwo(b, v, t, i, j);
      assert Next(|b|, s[i]) == w[k] && Next(|b|, s[j]) == w[l];
      RankingAt(b, rank, s[i], s[j]);
    }
  }


  ghost function UpTo(keys: seq<nat>, n: nat, v: nat): set<nat>
    requires n <= |keys|
  {
    set p: nat | p < n && keys[p] == v
  }

  lemma {:induction false} CountUpTo(keys: seq<nat>, n: nat, v: nat)
    requires n <= |keys|
    ensures |UpTo(keys, n, v)| == multiset(keys[..n])[v]
  {
    if n == 0 {
      assert UpTo(keys, n, v) == {};
    } else {
      CountUpTo(keys, n - 1, v);
      assert keys[..n] == keys[..n - 1] + [keys[n - 1]];
      assert UpTo(keys, n, v) == UpTo(keys, n - 1, v) + if keys[n - 1] == v then {n - 1} else {};
    }
  }

  lemma SubsetSize(c: set<nat>, d: set<nat>)
    requires c <= d
    ensures |c| <= |d|
  {
    assert |d - c| == |d| - |c|;
  }

  /** A bucket has room for all rotations with its pair. */
  lemma PairRoom(b: seq<Byte>, v: nat, s: seq<nat>)
    requires OfPair(b, v, s)
    ensures |s| <= Start(b, v + 1) - Start(b, v)
  {
    hide Pairs, Start;
    var keys := Pairs(b);
    CountUpTo(keys, |b|, v);
    assert keys[..|b|] == keys;
    StartNext(b, v);
    DistinctCount(s);
    SubsetSize(Elements(s), UpTo(keys, |b|, v));
  }

  /** All rotations with its pair fill it. */
  lemma PairFull(b: seq<Byte>, v: nat, s: seq<nat>)
    requires OfPair(b, v, s) && forall p :: 0 <= p < |b| && Pairs(b)[p] == v ==> p in s
    ensures |s| == Start(b, v + 1) - Start(b, v)
  {
    hide Pairs, Start;
    var keys := Pairs(b);
    CountUpTo(keys, |b|, v);
    assert keys[..|b|] == keys;
    StartNext(b, v);
    DistinctCount(s);
    assert Elements(s) == UpTo(keys, |b|, v);
  }
}
