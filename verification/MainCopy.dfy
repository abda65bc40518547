/** Synthesising the order of the buckets [t, c] from that of the rotations starting with c. */
module MainCopy {
  import opened Permutations
  import opened Rotations
  import opened SegmentSort
  import opened MainSimple
  import opened MainBuckets
  import opened MainWalk

  function Pair(t: nat, c: nat): nat {
    256 * t + c
  }

  // ---- What stands where ----

  /** The list w stands from place `from` on, to the right. */
  ghost predicate Rightwards(s: seq<nat>, from: nat, w: seq<nat>) {
    from + |w| <= |s| && forall i :: 0 <= i < |w| ==> s[from + i] == w[i]
  }

  /** The list w stands before place `end`, to the left. */
  ghost predicate Leftwards(s: seq<nat>, end: nat, w: seq<nat>) {
    |w| <= end <= |s| && forall i :: 0 <= i < |w| ==> s[end - 1 - i] == w[i]
  }

  /** Bucket v starts with the list q, and `at` is the place behind it. */
  ghost predicate StartsWith(b: seq<Byte>, s: seq<nat>, v: nat, at: int, q: seq<nat>) {
    Rightwards(s, Start(b, v), q) && at == Start(b, v) + |q| <= Start(b, v + 1)
  }

  /** Bucket v ends with the list q, and `at` is the place before it. */
  ghost predicate EndsWith(b: seq<Byte>, s: seq<nat>, v: nat, at: int, q: seq<nat>) {
    Leftwards(s, Start(b, v + 1), q) && at == Start(b, v + 1) - 1 - |q| >= Start(b, v) - 1
  }

  lemma StartsWithNext(b: seq<Byte>, s: seq<nat>, v: nat, at: int, q: seq<nat>, k: nat)
    requires StartsWith(b, s, v, at, q) && at < Start(b, v + 1) <= |s|
    ensures 0 <= at < |s| && In(b, v, at) && StartsWith(b, s[at := k], v, at + 1, q + [k])
  {
    hide Start;
  }

  lemma EndsWithNext(b: seq<Byte>, s: seq<nat>, v: nat, at: int, q: seq<nat>, k: nat)
    requires EndsWith(b, s, v, at, q) && Start(b, v) <= at && Start(b, v + 1) <= |s|
    ensures 0 <= at < |s| && In(b, v, at) && EndsWith(b, s[at := k], v, at - 1, q + [k])
  {
    hide Start;
  }

  /** A place in one bucket is not in another. */
  lemma StartsWithKept(b: seq<Byte>, s: seq<nat>, v: nat, at: int, q: seq<nat>, u: nat, z: nat, k: nat)
    requires StartsWith(b, s, v, at, q) && z < |s| && (if u == v then z >= at else In(b, u, z))
    ensures StartsWith(b, s[z := k], v, at, q)
  {
    hide Start;
    if u != v {
      InOne(b, u, v, z);
    }
  }

  lemma EndsWithKept(b: seq<Byte>, s: seq<nat>, v: nat, at: int, q: seq<nat>, u: nat, z: nat, k: nat)
    requires EndsWith(b, s, v, at, q) && z < |s| && (if u == v then z <= at else In(b, u, z))
    ensures EndsWith(b, s[z := k], v, at, q)
  {
    hide Start;
    if u != v {
      InOne(b, u, v, z);
    }
  }

  // ---- What is left alone ----

  /** The buckets that are written. */
  predicate Target(c: nat, done: seq<bool>, v: nat)
    requires |done| == 256
  {
    v < PAIRS && v % 256 == c && !done[v / 256]
  }

  ghost predicate Kept(b: seq<Byte>, s0: seq<nat>, s: seq<nat>, v: nat) {
    |s| == |s0| && forall k :: 0 <= k < |s| && In(b, v, k) ==> s[k] == s0[k]
  }

  ghost predicate Untouched(b: seq<Byte>, s0: seq<nat>, s: seq<nat>, c: nat, done: seq<bool>) {
    |s| == |s0| == |b| && |done| == 256 && forall v :: 0 <= v < PAIRS && !Target(c, done, v) ==> Kept(b, s0, s, v)
  }

  lemma UntouchedStarts(b: seq<Byte>, s: seq<nat>, c: nat, done: seq<bool>)
    requires |s| == |b| && |done| == 256
    ensures Untouched(b, s, s, c, done)
  {
  }

  lemma UntouchedStep(b: seq<Byte>, s0: seq<nat>, s: seq<nat>, c: nat, done: seq<bool>, v: nat, z: nat, k: nat)
    requires Untouched(b, s0, s, c, done) && Target(c, done, v) && In(b, v, z) && z < |s|
    ensures Untouched(b, s0, s[z := k], c, done)
  {
    hide In;
    forall u | 0 <= u < PAIRS && !Target(c, done, u) ensures Kept(b, s0, s[z := k], u) {
      assert Kept(b, s0, s, u);
      InOne(b, v, u, z);
    }
  }

  // ---- The scan from the left ----

  ghost predicate Lefts(b: seq<Byte>, s: seq<nat>, c: nat, done: seq<bool>, starts: seq<int>, w: seq<nat>, m: nat) {
    && |starts| == 256 == |done| && InRange(w, |b|) && m <= |w|
    && forall t :: 0 <= t < 256 && !done[t] ==> StartsWith(b, s, Pair(t, c), starts[t], Behind(b, w[..m], t))
  }

  lemma LeftsAt(b: seq<Byte>, s: seq<nat>, c: nat, done: seq<bool>, starts: seq<int>, w: seq<nat>, m: nat, t: nat)
    requires Lefts(b, s, c, done, starts, w, m) && t < 256
    ensures |starts| == 256 == |done| && InRange(w, |b|) && m <= |w|
    ensures !done[t] ==> StartsWith(b, s, Pair(t, c), starts[t], Behind(b, w[..m], t))
  {
  }

  /** The state of the scan: the list w stands from the start of bucket c on, and is read up to m. */
  ghost predicate Lefting(b: seq<Byte>, s0: seq<nat>, s: seq<nat>, c: nat, done: seq<bool>, starts: seq<int>, x: seq<nat>, w: seq<nat>, m: nat) {
    && Walking(b, Keys(b), c, x, w, m) && Lefts(b, s, c, done, starts, w, m)
    && Rightwards(s, Start(b, Pair(c, 0)), w) && Untouched(b, s0, s, c, done) && (m == 0 ==> s == s0)
    && Start(b, Pair(c, 0)) + |x| == Start(b, Pair(c, c))
  }

  /** Where the list ends. */
  lemma LeftingCount(b: seq<Byte>, s0: seq<nat>, s: seq<nat>, c: nat, done: seq<bool>, starts: seq<int>, x: seq<nat>, w: seq<nat>, m: nat)
    requires Lefting(b, s0, s, c, done, starts, x, w, m) && c < 256 && !done[c]
    ensures |starts| == 256 && starts[c] == Start(b, Pair(c, 0)) + |w| <= |s| == |b|
  {
    LeftsAt(b, s, c, done, starts, w, m, c);
  }

  /** Reading one more of the list adds at most its rotation one step back. */
  lemma LeftsRead(b: seq<Byte>, s: seq<nat>, c: nat, done: seq<bool>, starts: seq<int>, w: seq<nat>, m: nat)
    requires Lefts(b, s, c, done, starts, w, m) && m < |w| && done[b[Prev(|b|, w[m])]]
    ensures Lefts(b, s, c, done, starts, w, m + 1)
  {
    hide StartsWith, Behind;
    forall u | 0 <= u < 256 && !done[u] ensures StartsWith(b, s, Pair(u, c), starts[u], Behind(b, w[..m + 1], u)) {
      BehindNext(b, w, m, u);
    }
  }

  lemma LeftsWrite(b: seq<Byte>, s: seq<nat>, c: nat, done: seq<bool>, starts: seq<int>, w: seq<nat>, m: nat, w': seq<nat>)
    requires Lefts(b, s, c, done, starts, w, m) && m < |w| && c < 256
    requires InRange(w', |b|) && m < |w'| && w'[..m + 1] == w[..m + 1]
    requires var t := b[Prev(|b|, w[m])]; !done[t] && starts[t] < Start(b, Pair(t, c) + 1) <= |s|
    ensures var k := Prev(|b|, w[m]); var t := b[k];
            && 0 <= starts[t] < |s| && In(b, Pair(t, c), starts[t])
            && Lefts(b, s[starts[t] := k], c, done, starts[t := starts[t] + 1], w', m + 1)
  {
    hide StartsWith, Behind, In, Start;
    var k := Prev(|b|, w[m]);
    var t := b[k];
    BehindNext(b, w, m, t);
    StartsWithNext(b, s, Pair(t, c), starts[t], Behind(b, w[..m], t), k);
    var z, starts' := starts[t], starts[t := starts[t] + 1];
    forall u | 0 <= u < 256 && !done[u] ensures StartsWith(b, s[z := k], Pair(u, c), starts'[u], Behind(b, w'[..m + 1], u)) {
      BehindNext(b, w, m, u);
      if u != t {
        StartsWithKept(b, s, Pair(u, c), starts[u], Behind(b, w[..m], u), Pair(t, c), z, k);
      }
    }
  }

  /** The list itself stays, and grows if the place written is its end. */
  lemma ListWrite(b: seq<Byte>, s: seq<nat>, c: nat, w: seq<nat>, t: nat, z: nat, k: nat)
    requires Rightwards(s, Start(b, Pair(c, 0)), w) && c < 256 && t < 256 && z < |s| && In(b, Pair(t, c), z)
    requires Start(b, Pair(c, 0)) + |w| <= Start(b, Pair(c, c) + 1)
    requires t == c ==> z == Start(b, Pair(c, 0)) + |w|
    ensures Rightwards(s[z := k], Start(b, Pair(c, 0)), if t == c then w + [k] else w)
  {
    hide Start;
    if t != c {
      InOne(b, Pair(t, c), Pair(c, 0), z);
      InOne(b, Pair(t, c), Pair(c, c) + 1, z);
    }
  }

  /** There is room for one more in its bucket. */
  lemma LeftRoom(b: seq<Byte>, c: nat, x: seq<nat>, w: seq<nat>, m: nat)
    requires Ranking(b, Keys(b)) && Walking(b, Keys(b), c, x, w, m) && m < |w|
    ensures var t := b[Prev(|b|, w[m])]; Start(b, Pair(t, c)) + |Behind(b, w[..m], t)| < Start(b, Pair(t, c) + 1)
  {
    hide Ranking, Start, Behind, Walking, Keys, Key, Pairs, Ascends, OfPair, Distinct;
    WalkingFacts(b, Keys(b), c, x, w, m);
    var t := b[Prev(|b|, w[m])];
    BehindOfPair(b, Keys(b), c, x, w, m + 1, m, t);
    BehindNext(b, w, m, t);
    PairRoom(b, Pair(t, c), Behind(b, w[..m + 1], t));
  }

  lemma LeftStep(b: seq<Byte>, s0: seq<nat>, s: seq<nat>, c: nat, done: seq<bool>, starts: seq<int>, x: seq<nat>, w: seq<nat>, m: nat)
    requires Ranking(b, Keys(b)) && Firsts(b, Keys(b), c, x) && c < 256 && |done| == 256 && !done[c]
    requires Lefting(b, s0, s, c, done, starts, x, w, m) && m < |w|
    ensures w[m] < |b| && Start(b, Pair(c, 0)) + m < |s| && s[Start(b, Pair(c, 0)) + m] == w[m]
    ensures var k := Prev(|b|, w[m]); var t := b[k];
            |starts| == 256 && if done[t] then Lefting(b, s0, s, c, done, starts, x, w, m + 1) else
              0 <= starts[t] < |s| &&
              Lefting(b, s0, s[starts[t] := k], c, done, starts[t := starts[t] + 1], x, if t == c then w + [k] else w, m + 1)
  {
    hide Ranking, Firsts, Start, Behind, Walking, Lefts, Keys, Key;
    WalkingFacts(b, Keys(b), c, x, w, m);
    var k := Prev(|b|, w[m]);
    var t := b[k];
    WalkStep(b, Keys(b), c, x, w, m);
    LeftsAt(b, s, c, done, starts, w, m, t);
    if done[t] {
      LeftsRead(b, s, c, done, starts, w, m);
    } else {
      var w' := if t == c then w + [k] else w;
      assert w'[..m + 1] == w[..m + 1];
      LeftRoom(b, c, x, w, m);
      LeftingCount(b, s0, s, c, done, starts, x, w, m);
      LeftsAt(b, s, c, done, starts, w, m, c);
      StartEnds(b, Pair(t, c) + 1);
      LeftsWrite(b, s, c, done, starts, w, m, w');
      TargetPair(c, done, t);
      UntouchedStep(b, s0, s, c, done, Pair(t, c), starts[t], k);
      ListWrite(b, s, c, w, t, starts[t], k);
    }
  }

  lemma TargetPair(c: nat, done: seq<bool>, t: nat)
    requires |done| == 256 && t < 256 && c < 256 && !done[t]
    ensures Target(c, done, Pair(t, c))
  {
  }

  lemma WalkingFacts(b: seq<Byte>, rank: seq<nat>, c: nat, x: seq<nat>, w: seq<nat>, m: nat)
    requires Walking(b, rank, c, x, w, m)
    ensures InRange(w, |b|) && m <= |w|
  {
  }

  // ---- The scan from the right ----

  ghost predicate Rights(b: seq<Byte>, s: seq<nat>, c: nat, done: seq<bool>, ends: seq<int>, w: seq<nat>, m: nat) {
    && |ends| == 256 == |done| && InRange(w, |b|) && m <= |w|
    && forall t :: 0 <= t < 256 && !done[t] ==> EndsWith(b, s, Pair(t, c), ends[t], Behind(b, w[..m], t))
  }

  lemma RightsAt(b: seq<Byte>, s: seq<nat>, c: nat, done: seq<bool>, ends: seq<int>, w: seq<nat>, m: nat, t: nat)
    requires Rights(b, s, c, done, ends, w, m) && t < 256
    ensures |ends| == 256 == |done| && InRange(w, |b|) && m <= |w|
    ensures !done[t] ==> EndsWith(b, s, Pair(t, c), ends[t], Behind(b, w[..m], t))
  {
  }

  /** The state of the scan: what the first one wrote stays, and w stands before the end of bucket c, leftwards. */
  ghost predicate Righting(b: seq<Byte>, s0: seq<nat>, s: seq<nat>, c: nat, done: seq<bool>, starts: seq<int>, ends: seq<int>,
                           low: seq<nat>, x: seq<nat>, w: seq<nat>, m: nat) {
    && Walking(b, Down(b), c, x, w, m) && Rights(b, s, c, done, ends, w, m) && Lefts(b, s, c, done, starts, low, |low|)
    && Leftwards(s, Start(b, Pair(c + 1, 0)), w) && Untouched(b, s0, s, c, done) && (m == 0 && |low| == 0 ==> s == s0)
    && Start(b, Pair(c, c) + 1) + |x| == Start(b, Pair(c + 1, 0))
  }

  lemma RightingCount(b: seq<Byte>, s0: seq<nat>, s: seq<nat>, c: nat, done: seq<bool>, starts: seq<int>, ends: seq<int>,
                      low: seq<nat>, x: seq<nat>, w: seq<nat>, m: nat)
    requires Righting(b, s0, s, c, done, starts, ends, low, x, w, m) && c < 256 && !done[c]
    ensures |ends| == 256 && ends[c] == Start(b, Pair(c + 1, 0)) - 1 - |w| >= -1 && |s| == |b|
  {
    RightsAt(b, s, c, done, ends, w, m, c);
  }

  lemma RightsRead(b: seq<Byte>, s: seq<nat>, c: nat, done: seq<bool>, ends: seq<int>, w: seq<nat>, m: nat)
    requires Rights(b, s, c, done, ends, w, m) && m < |w| && done[b[Prev(|b|, w[m])]]
    ensures Rights(b, s, c, done, ends, w, m + 1)
  {
    hide EndsWith, Behind;
    forall u | 0 <= u < 256 && !done[u] ensures EndsWith(b, s, Pair(u, c), ends[u], Behind(b, w[..m + 1], u)) {
      BehindNext(b, w, m, u);
    }
  }

  lemma RightsWrite(b: seq<Byte>, s: seq<nat>, c: nat, done: seq<bool>, ends: seq<int>, w: seq<nat>, m: nat, w': seq<nat>)
    requires Rights(b, s, c, done, ends, w, m) && m < |w| && c < 256
    requires InRange(w', |b|) && m < |w'| && w'[..m + 1] == w[..m + 1]
    requires var t := b[Prev(|b|, w[m])]; !done[t] && Start(b, Pair(t, c)) <= ends[t] && Start(b, Pair(t, c) + 1) <= |s|
    ensures var k := Prev(|b|, w[m]); var t := b[k];
            && 0 <= ends[t] < |s| && In(b, Pair(t, c), ends[t])
            && Rights(b, s[ends[t] := k], c, done, ends[t := ends[t] - 1], w', m + 1)
  {
    hide EndsWith, Behind, In, Start;
    var k := Prev(|b|, w[m]);
    var t := b[k];
    BehindNext(b, w, m, t);
    EndsWithNext(b, s, Pair(t, c), ends[t], Behind(b, w[..m], t), k);
    var z, ends' := ends[t], ends[t := ends[t] - 1];
    forall u | 0 <= u < 256 && !done[u] ensures EndsWith(b, s[z := k], Pair(u, c), ends'[u], Behind(b, w'[..m + 1], u)) {
      BehindNext(b, w, m, u);
      if u != t {
        EndsWithKept(b, s, Pair(u, c), ends[u], Behind(b, w[..m], u), Pair(t, c), z, k);
      }
    }
  }

  /** What the first scan wrote is not overwritten. */
  lemma LeftsKept(b: seq<Byte>, s: seq<nat>, c: nat, done: seq<bool>, starts: seq<int>, w: seq<nat>, t: nat, z: nat, k: nat)
    requires Lefts(b, s, c, done, starts, w, |w|) && t < 256 && c < 256 && !done[t] && In(b, Pair(t, c), z) && starts[t] <= z < |s|
    ensures Lefts(b, s[z := k], c, done, starts, w, |w|)
  {
    hide StartsWith, Behind, In, Start;
    forall u | 0 <= u < 256 && !done[u] ensures StartsWith(b, s[z := k], Pair(u, c), starts[u], Behind(b, w[..|w|], u)) {
      StartsWithKept(b, s, Pair(u, c), starts[u], Behind(b, w[..|w|], u), Pair(t, c), z, k);
    }
  }

  lemma ListWriteLeft(b: seq<Byte>, s: seq<nat>, c: nat, w: seq<nat>, t: nat, z: nat, k: nat)
    requires Leftwards(s, Start(b, Pair(c + 1, 0)), w) && c < 256 && t < 256 && z < |s| && In(b, Pair(t, c), z)
    requires Start(b, Pair(c, c)) + |w| <= Start(b, Pair(c + 1, 0))
    requires t == c ==> z == Start(b, Pair(c + 1, 0)) - 1 - |w|
    ensures Leftwards(s[z := k], Start(b, Pair(c + 1, 0)), if t == c then w + [k] else w)
  {
    hide Start;
    if t != c {
      InOne(b, Pair(t, c), Pair(c + 1, 0), z);
      InOne(b, Pair(t, c), Pair(c, c), z);
    }
  }

  /** The rotations listed by the two walks differ, and so do those one step back. */
  lemma BehindApart(b: seq<Byte>, low: seq<nat>, w: seq<nat>, t: nat, i: nat, j: nat)
    requires InRange(low, |b|) && InRange(w, |b|) && i < |Behind(b, low, t)| && j < |Behind(b, w, t)|
    requires forall k :: 0 <= k < |low| ==> Falls(b, Keys(b), low[k])
    requires forall k :: 0 <= k < |w| ==> Falls(b, Down(b), w[k])
    ensures Behind(b, low, t)[i] != Behind(b, w, t)[j]
  {
    hide Key, Behind;
    var k := BehindAt(b, low, t, i);
    var l := BehindAt(b, w, t, j);
    assert Falls(b, Keys(b), low[k]) && Falls(b, Down(b), w[l]);
    assert Next(|b|, Prev(|b|, low[k])) == low[k] && Next(|b|, Prev(|b|, w[l])) == w[l];
  }

  lemma OfPairBoth(b: seq<Byte>, v: nat, q: seq<nat>, r: seq<nat>)
    requires OfPair(b, v, q) && OfPair(b, v, r) && forall i, j :: 0 <= i < |q| && 0 <= j < |r| ==> q[i] != r[j]
    ensures OfPair(b, v, q + r)
  {
    hide Pairs;
  }

  lemma BothOfPair(b: seq<Byte>, c: nat, xl: seq<nat>, low: seq<nat>, x: seq<nat>, w: seq<nat>, m: nat, n: nat, t: nat)
    requires Ranking(b, Keys(b)) && Ranking(b, Down(b)) && t < 256
    requires Walking(b, Keys(b), c, xl, low, |low|) && Walking(b, Down(b), c, x, w, n) && m <= |w|
    ensures InRange(w[..m], |b|) && InRange(low, |b|)
    ensures OfPair(b, Pair(t, c), Behind(b, low, t) + Behind(b, w[..m], t))
  {
    hide Ranking, Key, Pairs, Behind, Falls, OfPair, Keys, Down, Ascends;
    assert low[..|low|] == low;
    BehindOfPair(b, Keys(b), c, xl, low, |low|, |low|, t);
    BehindOfPair(b, Down(b), c, x, w, m, n, t);
    var q, r := Behind(b, low, t), Behind(b, w[..m], t);
    forall i, j | 0 <= i < |q| && 0 <= j < |r| ensures q[i] != r[j] {
      BehindApart(b, low, w[..m], t, i, j);
    }
    OfPairBoth(b, Pair(t, c), q, r);
  }

  lemma RightRoom(b: seq<Byte>, c: nat, xl: seq<nat>, low: seq<nat>, x: seq<nat>, w: seq<nat>, m: nat)
    requires Ranking(b, Keys(b)) && Ranking(b, Down(b))
    requires Walking(b, Keys(b), c, xl, low, |low|) && Walking(b, Down(b), c, x, w, m) && m < |w|
    ensures InRange(low, |b|)
    ensures var t := b[Prev(|b|, w[m])];
            Start(b, Pair(t, c)) + |Behind(b, low, t)| + |Behind(b, w[..m], t)| < Start(b, Pair(t, c) + 1)
  {
    hide Ranking, Start, Behind, Walking, Keys, Key, Pairs, OfPair, Down, Distinct;
    WalkingFacts(b, Down(b), c, x, w, m);
    var t := b[Prev(|b|, w[m])];
    BothOfPair(b, c, xl, low, x, w, m + 1, m, t);
    BehindNext(b, w, m, t);
    PairRoom(b, Pair(t, c), Behind(b, low, t) + Behind(b, w[..m + 1], t));
  }

  lemma RightStep(b: seq<Byte>, s0: seq<nat>, s: seq<nat>, c: nat, done: seq<bool>, starts: seq<int>, ends: seq<int>,
                  xl: seq<nat>, low: seq<nat>, x: seq<nat>, w: seq<nat>, m: nat)
    requires Ranking(b, Keys(b)) && Ranking(b, Down(b)) && Firsts(b, Down(b), c, x) && c < 256 && |done| == 256 && !done[c]
    requires Walking(b, Keys(b), c, xl, low, |low|) && Righting(b, s0, s, c, done, starts, ends, low, x, w, m) && m < |w|
    ensures w[m] < |b| && 0 <= Start(b, Pair(c + 1, 0)) - 1 - m < |s| && s[Start(b, Pair(c + 1, 0)) - 1 - m] == w[m]
    ensures var k := Prev(|b|, w[m]); var t := b[k];
            |ends| == 256 && if done[t] then Righting(b, s0, s, c, done, starts, ends, low, x, w, m + 1) else
              0 <= ends[t] < |s| &&
              Righting(b, s0, s[ends[t] := k], c, done, starts, ends[t := ends[t] - 1], low, x, if t == c then w + [k] else w, m + 1)
  {
    hide Ranking, Firsts, Start, Behind, Walking, Lefts, Rights, Keys, Key;
    WalkingFacts(b, Down(b), c, x, w, m);
    var k := Prev(|b|, w[m]);
    var t := b[k];
    WalkStep(b, Down(b), c, x, w, m);
    RightsAt(b, s, c, done, ends, w, m, t);
    LeftsAt(b, s, c, done, starts, low, |low|, t);
    assert low[..|low|] == low;
    if done[t] {
      RightsRead(b, s, c, done, ends, w, m);
    } else {
      var w' := if t == c then w + [k] else w;
      assert w'[..m + 1] == w[..m + 1];
      RightRoom(b, c, xl, low, x, w, m);
      RightingCount(b, s0, s, c, done, starts, ends, low, x, w, m);
      RightsAt(b, s, c, done, ends, w, m, c);
      StartEnds(b, Pair(t, c) + 1);
      RightsWrite(b, s, c, done, ends, w, m, w');
      TargetPair(c, done, t);
      UntouchedStep(b, s0, s, c, done, Pair(t, c), ends[t], k);
      LeftsKept(b, s, c, done, starts, low, t, ends[t], k);
      ListWriteLeft(b, s, c, w, t, ends[t], k);
    }
  }
}
