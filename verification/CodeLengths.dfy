/** Choosing code lengths: Huffman trees, rebuilt with flattened weights while too deep. */
module CodeLengths {
  import opened Permutations
  import opened HeaderBits
  import opened CanonicalCodes
  import opened WeightHeap
  import opened Huffman

  const NODES := 516
  const WEIGHT_LIMIT := 0x80_0000

  /** The weight and the depth packed in a node's word. */
  function WeightOf(w: int): int {
    w / 256
  }

  function DepthOf(w: int): int {
    w % 256
  }

  function Max(a: int, b: int): int {
    if a > b then a else b
  }

  /** The word of a node over two others, as the packed addition computes it. */
  function AddWeights(w1: int, w2: int): int {
    (WeightOf(w1) + WeightOf(w2)) * 256 + (1 + Max(DepthOf(w1), DepthOf(w2)))
  }

  lemma AddWeightsParts(w1: int, w2: int)
    requires 0 <= w1 && 0 <= w2 && DepthOf(w1) < 255 && DepthOf(w2) < 255
    ensures WeightOf(AddWeights(w1, w2)) == WeightOf(w1) + WeightOf(w2)
    ensures DepthOf(AddWeights(w1, w2)) == 1 + Max(DepthOf(w1), DepthOf(w2))
  {
  }

  function Fib(n: nat): nat {
    if n < 2 then n else Fib(n - 1) + Fib(n - 2)
  }

  lemma {:induction false} FibMonotone(a: nat, b: nat)
    requires a <= b
    ensures Fib(a) <= Fib(b)
    decreases b
  {
    if a < b {
      FibMonotone(a, b - 1);
    }
  }

  // ---- The forest while it is being built ----

  /** Weight of the roots among nodes 1..m. */
  function RootWeight(parent: seq<int>, weight: seq<int>, m: nat): int
    requires m < |parent| && m < |weight|
  {
    if m == 0 then 0
    else RootWeight(parent, weight, m - 1) + if parent[m] < 0 then WeightOf(weight[m]) else 0
  }

  /**
   * The shape of a forest over leaves 1..leaves with nodes up to `count`: parents have
   * greater numbers, roots have parent -1, every inner node has exactly two children.
   */
  ghost predicate Shape(parent: seq<int>, left: seq<nat>, right: seq<nat>, leaves: nat, count: nat) {
    && 0 < leaves <= count < NODES == |parent| == |left| == |right|
    && (forall x :: 1 <= x <= count && parent[x] != -1 ==>
          x < parent[x] <= count && leaves < parent[x] && (x == left[parent[x]] || x == right[parent[x]]))
    && (forall k :: leaves < k <= count ==>
          1 <= left[k] < k && 1 <= right[k] < k && left[k] != right[k] && parent[left[k]] == k && parent[right[k]] == k)
  }

  /** Inner nodes carry the sums of their children. */
  ghost predicate Sums(weight: seq<int>, left: seq<nat>, right: seq<nat>, leaves: nat, count: nat) {
    && count < NODES == |weight| == |left| == |right|
    && forall k :: leaves < k <= count ==>
         left[k] <= count && right[k] <= count && weight[k] == AddWeights(weight[left[k]], weight[right[k]])
  }

  /** Words are ordered by retirement: roots weigh at least as much as nodes already merged. */
  ghost predicate Retired(parent: seq<int>, weight: seq<int>, count: nat) {
    && count < |parent| && count < |weight|
    && forall x, r :: 1 <= x <= count && 1 <= r <= count && parent[x] != -1 && parent[r] == -1 ==> weight[x] <= weight[r]
  }

  /** A grandparent outweighs the parent by at least the grandchild. */
  ghost predicate Growing(parent: seq<int>, weight: seq<int>, count: nat) {
    && count < |parent| && count < |weight|
    && forall x, p :: 1 <= x <= count && 1 <= p <= count && parent[x] == p && 1 <= parent[p] <= count ==>
         WeightOf(weight[parent[p]]) >= WeightOf(weight[p]) + WeightOf(weight[x])
  }

  /** The children of k are no heavier than x, the left one no heavier than the right. */
  ghost predicate Lighter(weight: seq<int>, left: seq<nat>, right: seq<nat>, k: nat, x: nat) {
    && k < |left| && k < |right| && left[k] < |weight| && right[k] < |weight| && x < |weight|
    && weight[left[k]] <= weight[right[k]] && (x == left[k] || weight[right[k]] <= weight[x])
  }

  /** Every inner node was put over the two lightest roots there were. */
  ghost predicate Chosen(parent: seq<int>, weight: seq<int>, left: seq<nat>, right: seq<nat>, leaves: nat, count: nat) {
    && count < |parent|
    && forall k, x :: leaves < k <= count && 1 <= x < k && (parent[x] == -1 || parent[x] >= k) ==> Lighter(weight, left, right, k, x)
  }

  /** Weights bound the packed depths, so that these never run over. */
  ghost predicate Shallow(weight: seq<int>, leaves: nat, count: nat) {
    && count < |weight|
    && forall x :: 1 <= x <= count ==>
         && weight[x] >= 256 && WeightOf(weight[x]) >= Fib(DepthOf(weight[x]) + 2)
         && (x <= leaves ==> DepthOf(weight[x]) == 0)
  }

  lemma DepthSmall(w: int)
    requires 0 <= w && WeightOf(w) < WEIGHT_LIMIT && WeightOf(w) >= Fib(DepthOf(w) + 2)
    ensures DepthOf(w) < 40
  {
    if DepthOf(w) >= 40 {
      FibMonotone(36, DepthOf(w) + 2);
      FibAt36();
    }
  }

  lemma FibAt36()
    ensures Fib(36) >= WEIGHT_LIMIT && Fib(15) == 610
  {
    assert Fib(5) == 5;
    assert Fib(6) == 8 && Fib(7) == 13;
    assert Fib(8) == 21 && Fib(9) == 34;
    assert Fib(10) == 55 && Fib(11) == 89;
    assert Fib(12) == 144 && Fib(13) == 233;
    assert Fib(14) == 377 && Fib(15) == 610;
    assert Fib(16) == 987 && Fib(17) == 1597;
    assert Fib(18) == 2584 && Fib(19) == 4181;
    assert Fib(20) == 6765 && Fib(21) == 10946;
    assert Fib(22) == 17711 && Fib(23) == 28657;
    assert Fib(24) == 46368 && Fib(25) == 75025;
    assert Fib(26) == 121393 && Fib(27) == 196418;
    assert Fib(28) == 317811 && Fib(29) == 514229;
    assert Fib(30) == 832040 && Fib(31) == 1346269;
    assert Fib(32) == 2178309 && Fib(33) == 3524578;
    assert Fib(34) == 5702887 && Fib(35) == 9227465;
  }

  ghost predicate Bounded(weight: seq<int>, count: nat, total: nat) {
    count < |weight| && total < WEIGHT_LIMIT && forall x :: 1 <= x <= count ==> WeightOf(weight[x]) <= total
  }

  /** Everything kept while the tree grows. */
  ghost predicate Building(parent: seq<int>, weight: seq<int>, left: seq<nat>, right: seq<nat>,
                           leaves: nat, count: nat, total: nat) {
    && Shape(parent, left, right, leaves, count) && Sums(weight, left, right, leaves, count)
    && Retired(parent, weight, count) && Growing(parent, weight, count)
    && Shallow(weight, leaves, count) && Bounded(weight, count, total)
    && RootWeight(parent, weight, count) == total && Chosen(parent, weight, left, right, leaves, count)
  }

  lemma WeightMonotone(a: int, b: int)
    requires a <= b
    ensures WeightOf(a) <= WeightOf(b)
  {
  }

  lemma {:induction false} RootWeightUnchanged(parent: seq<int>, weight: seq<int>, parent': seq<int>, weight': seq<int>, m: nat)
    requires m < |parent| && m < |weight| && m < |parent'| && m < |weight'|
    requires forall x :: 1 <= x <= m ==> parent'[x] == parent[x] && weight'[x] == weight[x]
    ensures RootWeight(parent', weight', m) == RootWeight(parent, weight, m)
  {
    if m > 0 {
      RootWeightUnchanged(parent, weight, parent', weight', m - 1);
    }
  }

  /** A root given a parent no longer adds to the weight of the roots. */
  lemma {:induction false} RootLeaves(parent: seq<int>, weight: seq<int>, m: nat, r: nat, p: nat)
    requires m < |parent| && m < |weight| && 1 <= r <= m && parent[r] < 0
    ensures RootWeight(parent[r := p], weight, m) == RootWeight(parent, weight, m) - WeightOf(weight[r])
  {
    if r == m {
      RootWeightUnchanged(parent, weight, parent[r := p], weight, m - 1);
    } else {
      RootLeaves(parent, weight, m - 1, r, p);
    }
  }

  lemma {:induction false} RootWeightPositive(parent: seq<int>, weight: seq<int>, m: nat)
    requires m < |parent| && m < |weight| && forall x :: 1 <= x <= m ==> weight[x] >= 0
    ensures RootWeight(parent, weight, m) >= 0
  {
    if m > 0 {
      RootWeightPositive(parent, weight, m - 1);
    }
  }

  ghost function Merged(parent: seq<int>, count: nat, n1: nat, n2: nat): (p: seq<int>)
    requires n1 <= count && n2 <= count && count + 1 < |parent|
    ensures |p| == |parent| && p[count + 1] == -1 && p[n1] == count + 1 && p[n2] == count + 1
    ensures forall x :: 0 <= x <= count && x != n1 && x != n2 ==> p[x] == parent[x]
  {
    parent[n1 := count + 1][n2 := count + 1][count + 1 := -1]
  }

  /** The two lightest roots, in order. */
  ghost predicate Lightest(parent: seq<int>, weight: seq<int>, count: nat, n1: nat, n2: nat) {
    && count < |parent| && count < |weight|
    && 1 <= n1 <= count && 1 <= n2 <= count && n1 != n2 && parent[n1] == -1 && parent[n2] == -1
    && weight[n1] <= weight[n2]
    && forall r :: 1 <= r <= count && parent[r] == -1 && r != n1 ==> weight[n2] <= weight[r]
  }

  lemma MergeRootWeight(parent: seq<int>, weight: seq<int>, leaves: nat, count: nat, n1: nat, n2: nat, word: int)
    requires Lightest(parent, weight, count, n1, n2) && count + 1 < |parent| && count + 1 < |weight|
    requires Shallow(weight, leaves, count)
    requires WeightOf(word) == WeightOf(weight[n1]) + WeightOf(weight[n2])
    ensures RootWeight(Merged(parent, count, n1, n2), weight[count + 1 := word], count + 1) == RootWeight(parent, weight, count)
    ensures WeightOf(word) <= RootWeight(parent, weight, count)
  {
    hide WeightOf;
    var p1 := parent[n1 := count + 1];
    var p2 := p1[n2 := count + 1];
    RootLeaves(parent, weight, count, n1, count + 1);
    RootLeaves(p1, weight, count, n2, count + 1);
    RootWeightPositive(p2, weight, count);
    RootWeightUnchanged(p2, weight, Merged(parent, count, n1, n2), weight[count + 1 := word], count);
  }

  lemma MergeShape(parent: seq<int>, left: seq<nat>, right: seq<nat>, leaves: nat, count: nat, n1: nat, n2: nat)
    requires Shape(parent, left, right, leaves, count) && count + 1 < NODES
    requires 1 <= n1 <= count && 1 <= n2 <= count && n1 != n2 && parent[n1] == -1 && parent[n2] == -1
    ensures Shape(Merged(parent, count, n1, n2), left[count + 1 := n1], right[count + 1 := n2], leaves, count + 1)
  {
    var p', l', r' := Merged(parent, count, n1, n2), left[count + 1 := n1], right[count + 1 := n2];
    forall x | 1 <= x <= count + 1 && p'[x] != -1
      ensures x < p'[x] <= count + 1 && leaves < p'[x] && (x == l'[p'[x]] || x == r'[p'[x]])
    {
      if x != n1 && x != n2 {
        assert p'[x] == parent[x] <= count;
      }
    }
    forall k | leaves < k <= count + 1
      ensures 1 <= l'[k] < k && 1 <= r'[k] < k && l'[k] != r'[k] && p'[l'[k]] == k && p'[r'[k]] == k
    {
      if k <= count {
        assert parent[left[k]] == k && parent[right[k]] == k;
      }
    }
  }

  lemma MergeChosen(parent: seq<int>, weight: seq<int>, left: seq<nat>, right: seq<nat>, leaves: nat, count: nat, n1: nat, n2: nat, word: int)
    requires Chosen(parent, weight, left, right, leaves, count) && Lightest(parent, weight, count, n1, n2)
    requires Shape(parent, left, right, leaves, count) && count + 1 < NODES == |weight|
    ensures Chosen(Merged(parent, count, n1, n2), weight[count + 1 := word], left[count + 1 := n1], right[count + 1 := n2], leaves, count + 1)
  {
    var p', w', l', r' := Merged(parent, count, n1, n2), weight[count + 1 := word], left[count + 1 := n1], right[count + 1 := n2];
    forall k, x | leaves < k <= count + 1 && 1 <= x < k && (p'[x] == -1 || p'[x] >= k) ensures Lighter(w', l', r', k, x) {
      if k <= count {
        assert parent[x] == -1 || parent[x] >= k;
        assert Lighter(weight, left, right, k, x);
        assert left[k] < k && right[k] < k;
      } else {
        assert x == n1 || x == n2 || parent[x] == -1;
      }
    }
  }

  lemma MergeSums(weight: seq<int>, left: seq<nat>, right: seq<nat>, leaves: nat, count: nat, n1: nat, n2: nat)
    requires Sums(weight, left, right, leaves, count) && count + 1 < NODES && n1 <= count && n2 <= count
    ensures Sums(weight[count + 1 := AddWeights(weight[n1], weight[n2])], left[count + 1 := n1], right[count + 1 := n2],
                 leaves, count + 1)
  {
    hide AddWeights;
  }

  lemma NewRootHeavier(w1: int, w2: int)
    requires 256 <= w1 <= w2
    ensures AddWeights(w1, w2) >= w2
  {
  }

  lemma MergeRetired(parent: seq<int>, weight: seq<int>, count: nat, n1: nat, n2: nat, word: int)
    requires Retired(parent, weight, count) && Lightest(parent, weight, count, n1, n2) && word >= weight[n2]
    requires count + 1 < |parent| && count + 1 < |weight|
    ensures Retired(Merged(parent, count, n1, n2), weight[count + 1 := word], count + 1)
  {
    var p', w' := Merged(parent, count, n1, n2), weight[count + 1 := word];
    forall x, r | 1 <= x <= count + 1 && 1 <= r <= count + 1 && p'[x] != -1 && p'[r] == -1 ensures w'[x] <= w'[r] {
      if x != n1 && x != n2 {
        assert parent[x] != -1 && weight[x] <= weight[n2];
        if r <= count {
          assert parent[r] == -1;
        }
      }
    }
  }

  lemma MergeGrowing(parent: seq<int>, weight: seq<int>, count: nat, n1: nat, n2: nat, word: int)
    requires Retired(parent, weight, count) && Growing(parent, weight, count) && Lightest(parent, weight, count, n1, n2)
    requires count + 1 < |parent| && count + 1 < |weight|
    requires forall x :: 1 <= x <= count ==> parent[x] <= count
    requires WeightOf(word) == WeightOf(weight[n1]) + WeightOf(weight[n2])
    ensures Growing(Merged(parent, count, n1, n2), weight[count + 1 := word], count + 1)
  {
    var p', w' := Merged(parent, count, n1, n2), weight[count + 1 := word];
    forall x, p | 1 <= x <= count + 1 && 1 <= p <= count + 1 && p'[x] == p && 1 <= p'[p] <= count + 1
      ensures WeightOf(w'[p'[p]]) >= WeightOf(w'[p]) + WeightOf(w'[x])
    {
      assert x != count + 1 && x != n1 && x != n2 && parent[x] == p <= count;
      if p == n1 {
        assert weight[x] <= weight[n2];
        WeightMonotone(weight[x], weight[n2]);
      } else if p == n2 {
        assert weight[x] <= weight[n1];
        WeightMonotone(weight[x], weight[n1]);
      } else {
        assert p'[p] == parent[p];
      }
    }
  }

  /** The new node's weight bounds its depth: the deeper child has a child no heavier than the other one. */
  lemma MergeDepth(parent: seq<int>, weight: seq<int>, left: seq<nat>, right: seq<nat>,
                   leaves: nat, count: nat, total: nat, p: nat, q: nat)
    requires Shape(parent, left, right, leaves, count) && Sums(weight, left, right, leaves, count)
    requires Retired(parent, weight, count) && Shallow(weight, leaves, count) && Bounded(weight, count, total)
    requires 1 <= p <= count && 1 <= q <= count && parent[p] == -1 && parent[q] == -1
    requires DepthOf(weight[p]) >= DepthOf(weight[q])
    ensures WeightOf(weight[p]) + WeightOf(weight[q]) >= Fib(DepthOf(weight[p]) + 3)
  {
    var d := DepthOf(weight[p]);
    assert Fib(d + 3) == Fib(d + 2) + Fib(d + 1);
    if d == 0 {
      assert Fib(1) == 1 && WeightOf(weight[q]) >= 1;
    } else {
      var c := DeeperChild(weight, left, right, leaves, count, total, p);
      assert parent[c] != -1;
      assert weight[c] <= weight[q];
      WeightMonotone(weight[c], weight[q]);
    }
  }

  lemma DeeperChild(weight: seq<int>, left: seq<nat>, right: seq<nat>, leaves: nat, count: nat, total: nat, p: nat)
    returns (c: nat)
    requires Sums(weight, left, right, leaves, count) && Shallow(weight, leaves, count) && Bounded(weight, count, total)
    requires forall k :: leaves < k <= count ==> 1 <= left[k] && 1 <= right[k]
    requires 1 <= p <= count && DepthOf(weight[p]) > 0
    ensures leaves < p && (c == left[p] || c == right[p]) && c <= count
    ensures WeightOf(weight[c]) >= Fib(DepthOf(weight[p]) + 1)
  {
    var a, b := left[p], right[p];
    DepthSmall(weight[a]);
    DepthSmall(weight[b]);
    AddWeightsParts(weight[a], weight[b]);
    c := if DepthOf(weight[a]) > DepthOf(weight[b]) then a else b;
  }

  lemma MergeNewNode(parent: seq<int>, weight: seq<int>, left: seq<nat>, right: seq<nat>,
                     leaves: nat, count: nat, total: nat, n1: nat, n2: nat)
    requires Building(parent, weight, left, right, leaves, count, total) && Lightest(parent, weight, count, n1, n2)
    ensures var word := AddWeights(weight[n1], weight[n2]);
            && word >= weight[n2] && WeightOf(word) == WeightOf(weight[n1]) + WeightOf(weight[n2])
            && word >= 256 && WeightOf(word) >= Fib(DepthOf(word) + 2)
  {
    hide RootWeight, Growing;
    var w1, w2 := weight[n1], weight[n2];
    DepthSmall(w1);
    DepthSmall(w2);
    AddWeightsParts(w1, w2);
    NewRootHeavier(w1, w2);
    hide AddWeights, WeightOf, DepthOf;
    if DepthOf(w1) >= DepthOf(w2) {
      MergeDepth(parent, weight, left, right, leaves, count, total, n1, n2);
    } else {
      MergeDepth(parent, weight, left, right, leaves, count, total, n2, n1);
    }
  }

  lemma MergeBounds(weight: seq<int>, leaves: nat, count: nat, total: nat, word: int)
    requires Shallow(weight, leaves, count) && Bounded(weight, count, total) && count + 1 < |weight| && leaves <= count
    requires word >= 256 && Fib(DepthOf(word) + 2) <= WeightOf(word) <= total
    ensures Shallow(weight[count + 1 := word], leaves, count + 1) && Bounded(weight[count + 1 := word], count + 1, total)
  {
    hide WeightOf, DepthOf, Fib;
  }

  lemma ShapeBounds(parent: seq<int>, left: seq<nat>, right: seq<nat>, leaves: nat, count: nat)
    requires Shape(parent, left, right, leaves, count)
    ensures 0 < leaves <= count < NODES == |parent| == |left| == |right|
    ensures forall x :: 1 <= x <= count ==> parent[x] <= count
  {
  }

  lemma LightestAre(parent: seq<int>, weight: seq<int>, count: nat, n1: nat, n2: nat)
    requires Lightest(parent, weight, count, n1, n2)
    ensures count < |parent| && count < |weight|
    ensures 1 <= n1 <= count && 1 <= n2 <= count && n1 != n2 && parent[n1] == -1 && parent[n2] == -1
  {
  }

  /** Merging the two lightest roots keeps everything. */
  lemma MergeKeeps(parent: seq<int>, weight: seq<int>, left: seq<nat>, right: seq<nat>,
                   leaves: nat, count: nat, total: nat, n1: nat, n2: nat)
    requires Building(parent, weight, left, right, leaves, count, total) && Lightest(parent, weight, count, n1, n2)
    requires count + 1 < NODES
    ensures Building(Merged(parent, count, n1, n2), weight[count + 1 := AddWeights(weight[n1], weight[n2])],
                     left[count + 1 := n1], right[count + 1 := n2], leaves, count + 1, total)
  {
    hide AddWeights, WeightOf, DepthOf, Fib, RootWeight, Shape, Retired, Growing, Shallow, Bounded, Lightest, Merged, Chosen;
    LightestAre(parent, weight, count, n1, n2);
    ShapeBounds(parent, left, right, leaves, count);
    var word := AddWeights(weight[n1], weight[n2]);
    MergeNewNode(parent, weight, left, right, leaves, count, total, n1, n2);
    MergeShape(parent, left, right, leaves, count, n1, n2);
    MergeSums(weight, left, right, leaves, count, n1, n2);
    hide Sums;
    MergeRootWeight(parent, weight, leaves, count, n1, n2, word);
    MergeRetired(parent, weight, count, n1, n2, word);
    MergeGrowing(parent, weight, count, n1, n2, word);
    MergeBounds(weight, leaves, count, total, word);
    MergeChosen(parent, weight, left, right, leaves, count, n1, n2, word);
  }

  // ---- The heap holds exactly the roots ----

  ghost predicate RootsInHeap(members: multiset<int>, parent: seq<int>, count: nat) {
    && count < |parent|
    && forall x :: members[x] == if 1 <= x <= count && parent[x] == -1 then 1 else 0
  }

  ghost predicate HeapState(heap: seq<int>, weight: seq<int>, parent: seq<int>, nHeap: nat, count: nat) {
    && Nodes(heap, weight, nHeap) && Ordered(heap, weight, nHeap)
    && RootsInHeap(Members(heap, nHeap), parent, count)
  }

  lemma MemberInside(heap: seq<int>, n: nat, i: nat)
    requires n < |heap| && 1 <= i <= n
    ensures heap[i] in Members(heap, n)
  {
    assert heap[1..n + 1][i - 1] == heap[i];
  }

  lemma MemberIndex(heap: seq<int>, n: nat, x: int) returns (i: nat)
    requires n < |heap| && x in Members(heap, n)
    ensures 1 <= i <= n && heap[i] == x
  {
    var j := MemberAtIndex(heap[1..n + 1], x);
    i := j + 1;
  }

  lemma RemoveRootMembers(heap: seq<int>, n: nat)
    requires 1 <= n < |heap|
    ensures Members(heap[1 := heap[n]], n - 1) == Members(heap, n) - multiset{heap[1]}
  {
    var h := heap[1 := heap[n]];
    var s := heap[1..n + 1];
    assert s == [heap[1]] + s[1..];
    if n > 1 {
      var middle := heap[2..n];
      assert h[1..n] == [heap[n]] + middle;
      assert s[1..] == middle + [heap[n]];
    }
  }

  lemma RemoveRootOrder(heap: seq<int>, weight: seq<int>, n: nat)
    requires Nodes(heap, weight, n) && Ordered(heap, weight, n) && n >= 1
    ensures Nodes(heap[1 := heap[n]], weight, n - 1) && OrderedAbove(heap[1 := heap[n]], weight, n - 1, 1)
  {
    var h := heap[1 := heap[n]];
    forall i | 2 <= i <= n - 1 && i / 2 != 1 ensures Edge(h, weight, i / 2, i) {
      assert Edge(heap, weight, i / 2, i);
    }
  }

  lemma RemoveRoot(heap: seq<int>, weight: seq<int>, n: nat)
    requires Nodes(heap, weight, n) && Ordered(heap, weight, n) && n >= 1
    ensures var h := heap[1 := heap[n]];
            && Nodes(h, weight, n - 1) && OrderedAbove(h, weight, n - 1, 1)
            && Members(h, n - 1) == Members(heap, n) - multiset{heap[1]}
    ensures forall x :: x in Members(heap, n) ==> 0 <= x < |weight| && weight[heap[1]] <= weight[x]
  {
    RemoveRootMembers(heap, n);
    RemoveRootOrder(heap, weight, n);
    hide Ordered, OrderedAbove, Members;
    forall x | x in Members(heap, n) ensures 0 <= x < |weight| && weight[heap[1]] <= weight[x] {
      var i := MemberIndex(heap, n, x);
      RootIsLeast(heap, weight, n, i);
    }
  }

  method ExtractMin(heap: array<int>, weight: array<int>, nHeap: nat) returns (m: nat)
    requires heap != weight && Nodes(heap[..], weight[..], nHeap) && Ordered(heap[..], weight[..], nHeap) && nHeap >= 1
    modifies heap
    ensures Nodes(heap[..], weight[..], nHeap - 1) && Ordered(heap[..], weight[..], nHeap - 1)
    ensures m in old(Members(heap[..], nHeap))
    ensures Members(heap[..], nHeap - 1) == old(Members(heap[..], nHeap)) - multiset{m}
    ensures forall x :: x in old(Members(heap[..], nHeap)) ==>
              0 <= x < weight.Length && m < weight.Length && weight[m] <= weight[x]
  {
    RemoveRoot(heap[..], weight[..], nHeap);
    MemberInside(heap[..], nHeap, 1);
    m := heap[1];
    hide Ordered, OrderedAbove, Members;
    heap[1] := heap[nHeap];
    DownHeap(heap, weight, nHeap - 1);
  }

  lemma AddLast(heap: seq<int>, weight: seq<int>, n: nat, node: int)
    requires Nodes(heap, weight, n) && Ordered(heap, weight, n) && n + 1 < HEAP_SIZE && 0 < node < |weight|
    ensures var h := heap[n + 1 := node];
            && Nodes(h, weight, n + 1) && OrderedBelow(h, weight, n + 1, n + 1)
            && Members(h, n + 1) == Members(heap, n) + multiset{node}
  {
    var h := heap[n + 1 := node];
    forall i | 2 <= i <= n + 1 && i != n + 1 ensures Edge(h, weight, i / 2, i) {
      assert Edge(heap, weight, i / 2, i);
    }
    assert h[1..n + 2] == heap[1..n + 1] + [node];
  }

  method Insert(heap: array<int>, weight: array<int>, nHeap: nat, node: nat)
    requires heap != weight && Nodes(heap[..], weight[..], nHeap) && Ordered(heap[..], weight[..], nHeap)
    requires nHeap + 1 < HEAP_SIZE && 0 < node < weight.Length
    modifies heap
    ensures Nodes(heap[..], weight[..], nHeap + 1) && Ordered(heap[..], weight[..], nHeap + 1)
    ensures Members(heap[..], nHeap + 1) == old(Members(heap[..], nHeap)) + multiset{node}
  {
    AddLast(heap[..], weight[..], nHeap, node);
    hide Nodes, Ordered, OrderedBelow, Members;
    heap[nHeap + 1] := node;
    UpHeap(heap, weight, nHeap + 1);
  }

  /** Words of nodes outside the heap do not matter to it. */
  lemma HeapFrame(heap: seq<int>, weight: seq<int>, n: nat, node: nat, word: int)
    requires Nodes(heap, weight, n) && Ordered(heap, weight, n) && 0 < node < |weight| && word >= 0
    requires node !in Members(heap, n)
    ensures Nodes(heap, weight[node := word], n) && Ordered(heap, weight[node := word], n)
  {
    forall i | 1 <= i <= n ensures heap[i] != node {
      MemberInside(heap, n, i);
    }
    forall i | 2 <= i <= n ensures Edge(heap, weight[node := word], i / 2, i) {
      assert Edge(heap, weight, i / 2, i);
    }
  }

  /** What two extractions took were the two lightest roots. */
  lemma TwoLightest(parent: seq<int>, weight: seq<int>, count: nat, m0: multiset<int>, n1: nat, n2: nat)
    requires RootsInHeap(m0, parent, count) && count < |weight|
    requires n1 in m0 && n2 in m0 - multiset{n1}
    requires forall x :: x in m0 ==> 0 <= x < |weight| && n1 < |weight| && weight[n1] <= weight[x]
    requires forall x :: x in m0 - multiset{n1} ==> 0 <= x < |weight| && n2 < |weight| && weight[n2] <= weight[x]
    ensures Lightest(parent, weight, count, n1, n2)
    ensures count + 1 < |parent| ==>
              RootsInHeap(m0 - multiset{n1} - multiset{n2} + multiset{count + 1}, Merged(parent, count, n1, n2), count + 1)
    ensures count + 1 !in m0 - multiset{n1} - multiset{n2}
  {
    assert m0[n1] == 1 && m0[n2] == 1;
    forall r | 1 <= r <= count && parent[r] == -1 && r != n1 ensures weight[n2] <= weight[r] {
      assert m0[r] == 1;
      assert r in m0 - multiset{n1};
    }
  }

  /** One merge: the two lightest roots become children of a new root. */
  method MergeOnce(heap: array<int>, weight: array<int>, parent: array<int>, nHeap: nat, count: nat,
                   ghost left: seq<nat>, ghost right: seq<nat>, ghost leaves: nat, ghost total: nat)
    returns (ghost left': seq<nat>, ghost right': seq<nat>)
    requires heap != weight && heap != parent && weight != parent && nHeap > 1 && count + 1 < NODES
    requires HeapState(heap[..], weight[..], parent[..], nHeap, count)
    requires Building(parent[..], weight[..], left, right, leaves, count, total)
    modifies heap, weight, parent
    ensures HeapState(heap[..], weight[..], parent[..], nHeap - 1, count + 1)
    ensures Building(parent[..], weight[..], left', right', leaves, count + 1, total)
    ensures count + 1 < weight.Length && forall i :: 0 <= i <= count ==> weight[i] == old(weight[i])
  {
    hide Building, Ordered, Members, RootsInHeap, AddWeights;
    ghost var w, p, m0 := weight[..], parent[..], Members(heap[..], nHeap);
    BuildingSizes(p, w, left, right, leaves, count, total);
    var n1 := ExtractMin(heap, weight, nHeap);
    RemainsNonEmpty(heap[..], nHeap - 1);
    var n2 := ExtractMin(heap, weight, nHeap - 1);
    TwoLightest(p, w, count, m0, n1, n2);
    MergeKeeps(p, w, left, right, leaves, count, total, n1, n2);
    LightestAre(p, w, count, n1, n2);
    MergeWord(p, w, left, right, leaves, count, total, n1, n2);
    hide Merged;
    var word := AddWeights(weight[n1], weight[n2]);
    HeapFrame(heap[..], w, nHeap - 2, count + 1, word);
    SetMerged(parent, count, n1, n2);
    weight[count + 1] := word;
    left', right' := left[count + 1 := n1], right[count + 1 := n2];
    Insert(heap, weight, nHeap - 2, count + 1);
  }

  lemma RemainsNonEmpty(heap: seq<int>, n: nat)
    requires 1 <= n < |heap|
    ensures |Members(heap, n)| > 0
  {
    MemberInside(heap, n, 1);
  }

  lemma BuildingSizes(parent: seq<int>, weight: seq<int>, left: seq<nat>, right: seq<nat>,
                      leaves: nat, count: nat, total: nat)
    requires Building(parent, weight, left, right, leaves, count, total)
    ensures 0 < leaves <= count < NODES == |parent| == |weight| == |left| == |right|
  {
  }

  lemma MergeWord(parent: seq<int>, weight: seq<int>, left: seq<nat>, right: seq<nat>,
                  leaves: nat, count: nat, total: nat, n1: nat, n2: nat)
    requires Building(parent, weight, left, right, leaves, count, total) && Lightest(parent, weight, count, n1, n2)
    ensures AddWeights(weight[n1], weight[n2]) >= 0
  {
    MergeNewNode(parent, weight, left, right, leaves, count, total, n1, n2);
  }

  method SetMerged(parent: array<int>, count: nat, n1: nat, n2: nat)
    requires n1 <= count && n2 <= count && count + 1 < parent.Length
    modifies parent
    ensures parent[..] == Merged(old(parent[..]), count, n1, n2)
  {
    parent[n1] := count + 1;
    parent[n2] := count + 1;
    parent[count + 1] := -1;
  }

  // ---- Building one tree ----

  /** The leaves' words hold weights of at least 1 and depth 0. */
  ghost predicate Leaves(weight: seq<int>, leaves: nat) {
    && 0 < leaves <= MAX_ALPHA && |weight| == NODES
    && forall i :: 1 <= i <= leaves ==> weight[i] >= 256 && DepthOf(weight[i]) == 0
  }

  ghost predicate Words(weight: seq<int>, leaves: nat) {
    Leaves(weight, leaves) && weight[0] == 0 && forall i :: 0 <= i < NODES ==> weight[i] >= 0
  }

  function LeafTotal(weight: seq<int>, m: nat): int
    requires m < |weight|
  {
    if m == 0 then 0 else LeafTotal(weight, m - 1) + WeightOf(weight[m])
  }

  lemma {:induction false} LeafTotalBounds(weight: seq<int>, m: nat, leaves: nat)
    requires Leaves(weight, leaves) && m <= leaves
    ensures LeafTotal(weight, m) >= 0
    ensures forall i :: 1 <= i <= m ==> WeightOf(weight[i]) <= LeafTotal(weight, m)
  {
    if m > 0 {
      LeafTotalBounds(weight, m - 1, leaves);
    }
  }

  lemma {:induction false} AllLeavesAreRoots(parent: seq<int>, weight: seq<int>, m: nat)
    requires m < |parent| && m < |weight| && forall x :: 1 <= x <= m ==> parent[x] == -1
    ensures RootWeight(parent, weight, m) == LeafTotal(weight, m)
  {
    if m > 0 {
      AllLeavesAreRoots(parent, weight, m - 1);
    }
  }

  lemma LeavesBuild(parent: seq<int>, weight: seq<int>, left: seq<nat>, right: seq<nat>, leaves: nat)
    requires Leaves(weight, leaves) && LeafTotal(weight, leaves) < WEIGHT_LIMIT
    requires |parent| == |left| == |right| == NODES && forall x :: 1 <= x <= leaves ==> parent[x] == -1
    ensures LeafTotal(weight, leaves) >= 0
    ensures Building(parent, weight, left, right, leaves, leaves, LeafTotal(weight, leaves))
  {
    AllLeavesAreRoots(parent, weight, leaves);
    LeafTotalBounds(weight, leaves, leaves);
    forall x | 1 <= x <= leaves ensures WeightOf(weight[x]) >= Fib(DepthOf(weight[x]) + 2) {
      assert Fib(2) == 1;
    }
  }

  lemma RootAdded(members: multiset<int>, parent: seq<int>, count: nat)
    requires RootsInHeap(members, parent, count) && count + 1 < |parent|
    ensures RootsInHeap(members + multiset{count + 1}, parent[count + 1 := -1], count + 1)
  {
  }

  /** Every leaf goes into the heap as a root. */
  method InsertLeaves(heap: array<int>, weight: array<int>, parent: array<int>, leaves: nat)
    requires heap != weight && heap != parent && weight != parent
    requires heap.Length == HEAP_SIZE && parent.Length == NODES && Words(weight[..], leaves)
    modifies heap, parent
    ensures HeapState(heap[..], weight[..], parent[..], leaves, leaves)
    ensures forall x :: 1 <= x <= leaves ==> parent[x] == -1
  {
    hide Ordered, RootsInHeap, Members;
    heap[0] := 0;
    parent[0] := -2;
    EmptyHeap(heap[..], weight[..], parent[..]);
    var i, nHeap := 1, 0;
    while i <= leaves
      invariant 1 <= i == nHeap + 1 <= leaves + 1
      invariant HeapState(heap[..], weight[..], parent[..], nHeap, nHeap)
      invariant forall x :: 1 <= x < i ==> parent[x] == -1
    {
      RootAdded(Members(heap[..], nHeap), parent[..], nHeap);
      parent[i] := -1;
      Insert(heap, weight, nHeap, i);
      nHeap := nHeap + 1;
      i := i + 1;
    }
  }

  lemma EmptyHeap(heap: seq<int>, weight: seq<int>, parent: seq<int>)
    requires |heap| == HEAP_SIZE && heap[0] == 0 && |weight| > 0 && weight[0] == 0 && |parent| > 0
    requires forall i :: 0 <= i < |weight| ==> weight[i] >= 0
    ensures HeapState(heap, weight, parent, 0, 0)
  {
    assert heap[1..1] == [];
  }

  /** A whole tree: everything kept, and only the last node is a root. */
  ghost predicate Tree(parent: seq<int>, weight: seq<int>, left: seq<nat>, right: seq<nat>, leaves: nat, count: nat, total: nat) {
    && Building(parent, weight, left, right, leaves, count, total)
    && forall x :: 1 <= x < count ==> parent[x] != -1
  }

  lemma OneRootLeft(heap: seq<int>, parent: seq<int>, weight: seq<int>, left: seq<nat>, right: seq<nat>,
                    leaves: nat, count: nat, total: nat)
    requires Building(parent, weight, left, right, leaves, count, total) && HeapState(heap, weight, parent, 1, count)
    ensures Tree(parent, weight, left, right, leaves, count, total)
  {
    ShapeBounds(parent, left, right, leaves, count);
    assert heap[1..2] == [heap[1]];
    var m := Members(heap, 1);
    assert m == multiset{heap[1]};
    assert RootsInHeap(m, parent, count);
    assert parent[count] == -1;
    hide Sums, Retired, Growing, Shallow, Bounded, RootWeight, Ordered;
    assert m[count] == 1;
    forall x | 1 <= x < count ensures parent[x] != -1 {
      assert m[x] == 0;
    }
  }

  /** Merges until a single root is left. */
  method MergeAll(heap: array<int>, weight: array<int>, parent: array<int>, leaves: nat, ghost total: nat,
                  ghost left0: seq<nat>, ghost right0: seq<nat>)
    returns (ghost left: seq<nat>, ghost right: seq<nat>)
    requires heap != weight && heap != parent && weight != parent
    requires 0 < leaves <= MAX_ALPHA && weight.Length == NODES
    requires HeapState(heap[..], weight[..], parent[..], leaves, leaves)
    requires Building(parent[..], weight[..], left0, right0, leaves, leaves, total)
    modifies heap, weight, parent
    ensures Tree(parent[..], weight[..], left, right, leaves, 2 * leaves - 1, total)
    ensures HeapState(heap[..], weight[..], parent[..], 1, 2 * leaves - 1)
    ensures forall i :: 0 <= i <= leaves ==> weight[i] == old(weight[i])
  {
    left, right := left0, right0;
    hide Building, HeapState, Tree;
    var nNodes, nHeap := leaves, leaves;
    while nHeap > 1
      invariant 1 <= nHeap <= leaves && nNodes + nHeap == 2 * leaves
      invariant HeapState(heap[..], weight[..], parent[..], nHeap, nNodes)
      invariant Building(parent[..], weight[..], left, right, leaves, nNodes, total)
      invariant forall i :: 0 <= i <= leaves ==> weight[i] == old(weight[i])
    {
      left, right := MergeOnce(heap, weight, parent, nHeap, nNodes, left, right, leaves, total);
      nHeap := nHeap - 1;
      nNodes := nNodes + 1;
    }
    OneRootLeft(heap[..], parent[..], weight[..], left, right, leaves, nNodes, total);
  }

  method BuildTree(heap: array<int>, weight: array<int>, parent: array<int>, leaves: nat, ghost total: nat)
    returns (ghost left: seq<nat>, ghost right: seq<nat>)
    requires heap != weight && heap != parent && weight != parent
    requires heap.Length == HEAP_SIZE && parent.Length == NODES && Words(weight[..], leaves)
    requires LeafTotal(weight[..], leaves) == total < WEIGHT_LIMIT
    modifies heap, weight, parent
    ensures Tree(parent[..], weight[..], left, right, leaves, 2 * leaves - 1, total)
    ensures Words(weight[..], leaves) && forall i :: 0 <= i <= leaves ==> weight[i] == old(weight[i])
  {
    ghost var was := weight[..];
    InsertLeaves(heap, weight, parent, leaves);
    hide Building, HeapState, LeafTotal, Tree, Leaves;
    left, right := seq(NODES, i => 0), seq(NODES, i => 0);
    LeavesBuild(parent[..], weight[..], left, right, leaves);
    left, right := MergeAll(heap, weight, parent, leaves, total, left, right);
    WordsPositive(heap[..], weight[..], parent[..], 1, 2 * leaves - 1);
    WordsKept(was, weight[..], leaves);
  }

  lemma WordsKept(weight: seq<int>, weight': seq<int>, leaves: nat)
    requires Words(weight, leaves) && |weight'| == NODES && forall i :: 0 <= i < NODES ==> weight'[i] >= 0
    requires forall i :: 0 <= i <= leaves ==> weight'[i] == weight[i]
    ensures Words(weight', leaves)
  {
  }

  lemma WordsPositive(heap: seq<int>, weight: seq<int>, parent: seq<int>, nHeap: nat, count: nat)
    requires HeapState(heap, weight, parent, nHeap, count)
    ensures forall i :: 0 <= i < |weight| ==> weight[i] >= 0
  {
  }

  // ---- Depths ----

  /** Steps from node x up to a root. */
  function Climb(parent: seq<int>, x: int): nat
    decreases |parent| - x
  {
    if 0 <= x < |parent| && x < parent[x] then 1 + Climb(parent, parent[x]) else 0
  }

  lemma ParentGrows(parent: seq<int>, weight: seq<int>, left: seq<nat>, right: seq<nat>, leaves: nat, count: nat, x: nat)
    requires Shape(parent, left, right, leaves, count) && Growing(parent, weight, count) && 1 <= x <= count && parent[x] != -1
    ensures |weight| > count && |parent| > count && x < parent[x] <= count && Climb(parent, x) == 1 + Climb(parent, parent[x])
    ensures var p := parent[x]; if parent[p] == -1 then Climb(parent, p) == 0 else
              1 <= parent[p] <= count && WeightOf(weight[parent[p]]) >= WeightOf(weight[p]) + WeightOf(weight[x])
  {
    hide WeightOf;
  }

  /** Weights grow like the Fibonacci numbers on the way to the root. */
  lemma {:induction false} ClimbGrows(parent: seq<int>, weight: seq<int>, left: seq<nat>, right: seq<nat>,
                                      leaves: nat, count: nat, total: nat, x: nat, j: nat)
    requires Shape(parent, left, right, leaves, count) && Growing(parent, weight, count)
    requires Bounded(weight, count, total) && 1 <= x <= count && parent[x] != -1
    requires WeightOf(weight[x]) >= Fib(j) && WeightOf(weight[parent[x]]) >= Fib(j + 1)
    ensures total >= Fib(j + Climb(parent, x))
    decreases count - x
  {
    hide WeightOf, Shape, Growing, Climb;
    ParentGrows(parent, weight, left, right, leaves, count, x);
    var p := parent[x];
    if parent[p] != -1 {
      ClimbGrows(parent, weight, left, right, leaves, count, total, p, j + 1);
    }
  }

  lemma ParentOutweighsTwo(weight: seq<int>, left: seq<nat>, right: seq<nat>, leaves: nat, count: nat, total: nat, p: nat)
    requires Sums(weight, left, right, leaves, count) && Shallow(weight, leaves, count) && Bounded(weight, count, total)
    requires leaves < p <= count && 1 <= left[p] && 1 <= right[p]
    ensures WeightOf(weight[p]) >= 2
  {
    DepthSmall(weight[left[p]]);
    DepthSmall(weight[right[p]]);
    AddWeightsParts(weight[left[p]], weight[right[p]]);
  }

  lemma LeafDepth(parent: seq<int>, weight: seq<int>, left: seq<nat>, right: seq<nat>, leaves: nat, count: nat, total: nat, x: nat)
    requires Tree(parent, weight, left, right, leaves, count, total) && 1 <= x <= leaves < count
    ensures 1 <= Climb(parent, x) && WEIGHT_LIMIT > total >= Fib(2 + Climb(parent, x))
  {
    var p := parent[x];
    assert x < p <= count;
    ParentOutweighsTwo(weight, left, right, leaves, count, total, p);
    assert Fib(2) == 1 && Fib(3) == 2;
    assert WeightOf(weight[x]) >= 1;
    ClimbGrows(parent, weight, left, right, leaves, count, total, x, 2);
  }

  lemma DepthFromTotal(depth: nat, total: nat)
    requires total < WEIGHT_LIMIT && total >= Fib(2 + depth)
    ensures depth <= 33 && (total <= 516 ==> depth <= 12)
  {
    hide Fib;
    FibAt36();
    if depth >= 34 {
      FibMonotone(36, 2 + depth);
    } else if depth >= 13 {
      FibMonotone(15, 2 + depth);
    }
  }

  /** No leaf is deeper than 33, and none deeper than 12 when the weights add up to 516 at most. */
  lemma DepthsBounded(parent: seq<int>, weight: seq<int>, left: seq<nat>, right: seq<nat>, leaves: nat, count: nat, total: nat, x: nat)
    requires Tree(parent, weight, left, right, leaves, count, total) && 1 <= x <= leaves < count
    ensures 1 <= Climb(parent, x) <= 33 && (total <= 516 ==> Climb(parent, x) <= 12)
  {
    hide Fib, Tree, Climb;
    LeafDepth(parent, weight, left, right, leaves, count, total, x);
    DepthFromTotal(Climb(parent, x), total);
  }

  // ---- Kraft's sum of the depths ----

  /** The shares of nodes 1..y that hang from above m: a cut through the tree. */
  function CutSum(parent: seq<int>, top: nat, m: nat, y: nat): nat
    requires y < |parent|
  {
    if y == 0 then 0
    else CutSum(parent, top, m, y - 1) + if parent[y] == -1 || parent[y] > m then Share(top, Climb(parent, y)) else 0
  }

  /** Lowering the cut below m adds the two children of m. */
  lemma {:induction false} LowerCut(parent: seq<int>, left: seq<nat>, right: seq<nat>, leaves: nat, count: nat,
                                    top: nat, m: nat, y: nat)
    requires Shape(parent, left, right, leaves, count) && leaves < m <= count && y < m
    ensures var share := Share(top, Climb(parent, m) + 1);
            CutSum(parent, top, m - 1, y)
            == CutSum(parent, top, m, y) + (if left[m] <= y then share else 0) + if right[m] <= y then share else 0
  {
    if y > 0 {
      LowerCut(parent, left, right, leaves, count, top, m, y - 1);
      hide Share;
      if parent[y] == m {
        assert y == left[m] || y == right[m];
        assert Climb(parent, y) == Climb(parent, m) + 1;
      } else {
        assert y != left[m] && y != right[m];
      }
    }
  }

  lemma LowerCutWhole(parent: seq<int>, left: seq<nat>, right: seq<nat>, leaves: nat, count: nat, top: nat, m: nat)
    requires Shape(parent, left, right, leaves, count) && leaves < m <= count && Climb(parent, m) < top
    ensures CutSum(parent, top, m - 1, m - 1) == CutSum(parent, top, m, m)
  {
    LowerCut(parent, left, right, leaves, count, top, m, m - 1);
    assert parent[m] == -1 || parent[m] > m;
  }

  /** Every cut has the same sum. */
  lemma {:induction false} CutsAgree(parent: seq<int>, left: seq<nat>, right: seq<nat>, leaves: nat, count: nat,
                                     top: nat, m: nat)
    requires Shape(parent, left, right, leaves, count) && leaves <= m <= count
    requires forall k :: leaves < k <= count ==> Climb(parent, k) < top
    ensures CutSum(parent, top, leaves, leaves) == CutSum(parent, top, m, m)
  {
    if m > leaves {
      CutsAgree(parent, left, right, leaves, count, top, m - 1);
      LowerCutWhole(parent, left, right, leaves, count, top, m);
    }
  }

  lemma {:induction false} RootCut(parent: seq<int>, left: seq<nat>, right: seq<nat>, leaves: nat, count: nat, top: nat, y: nat)
    requires Shape(parent, left, right, leaves, count) && y <= count
    requires forall x :: 1 <= x < count ==> parent[x] != -1
    ensures CutSum(parent, top, count, y) == if y == count then Pow2(top) else 0
  {
    if y > 0 {
      RootCut(parent, left, right, leaves, count, top, y - 1);
      assert y < count ==> parent[y] <= count;
      assert y == count ==> Climb(parent, y) == 0;
    }
  }

  /** Inner nodes lie above leaves, so they are less deep than the deepest leaf. */
  lemma {:induction false} InnerDepth(parent: seq<int>, left: seq<nat>, right: seq<nat>, leaves: nat, count: nat, top: nat, k: nat)
    requires Shape(parent, left, right, leaves, count) && 1 <= k <= count
    requires forall x :: 1 <= x <= leaves ==> Climb(parent, x) <= top
    ensures Climb(parent, k) <= top && (k > leaves ==> Climb(parent, k) < top)
    decreases k
  {
    if k > leaves {
      InnerDepth(parent, left, right, leaves, count, top, left[k]);
      assert parent[left[k]] == k && Climb(parent, left[k]) == 1 + Climb(parent, k);
    }
  }

  /** The lengths are the depths of the leaves. */
  ghost predicate DepthsOf(len: seq<Byte>, parent: seq<int>, leaves: nat) {
    |len| <= leaves && forall i :: 0 <= i < |len| ==> len[i] == Climb(parent, i + 1)
  }

  lemma {:induction false} LeafCut(parent: seq<int>, left: seq<nat>, right: seq<nat>, leaves: nat, count: nat, top: nat, len: seq<Byte>)
    requires Shape(parent, left, right, leaves, count) && DepthsOf(len, parent, leaves)
    requires forall i :: 0 <= i < |len| ==> len[i] <= top
    ensures CutSum(parent, top, leaves, |len|) == KraftSum(len, top)
  {
    if len != [] {
      LeafCut(parent, left, right, leaves, count, top, len[..|len| - 1]);
      assert parent[|len|] == -1 || parent[|len|] > leaves;
    }
  }

  /** Depths of a whole tree fill the code space exactly. */
  lemma TreeKraft(parent: seq<int>, weight: seq<int>, left: seq<nat>, right: seq<nat>, leaves: nat, count: nat, total: nat,
                  top: nat, len: seq<Byte>)
    requires Tree(parent, weight, left, right, leaves, count, total) && DepthsOf(len, parent, leaves) && |len| == leaves
    requires forall i :: 0 <= i < |len| ==> len[i] <= top
    ensures KraftSum(len, top) == Pow2(top)
  {
    assert Shape(parent, left, right, leaves, count);
    hide Tree, Shape, KraftSum, CutSum;
    assert forall x :: 1 <= x <= leaves ==> Climb(parent, x) == len[x - 1];
    ShapeBounds(parent, left, right, leaves, count);
    forall k | leaves < k <= count ensures Climb(parent, k) < top {
      InnerDepth(parent, left, right, leaves, count, top, k);
    }
    LeafCut(parent, left, right, leaves, count, top, len);
    CutsAgree(parent, left, right, leaves, count, top, count);
    assert forall x :: 1 <= x < count ==> parent[x] != -1 by {
      NonRoots(parent, weight, left, right, leaves, count, total);
    }
    RootCut(parent, left, right, leaves, count, top, count);
  }

  lemma NonRoots(parent: seq<int>, weight: seq<int>, left: seq<nat>, right: seq<nat>, leaves: nat, count: nat, total: nat)
    requires Tree(parent, weight, left, right, leaves, count, total)
    ensures count < |parent| && forall x :: 1 <= x < count ==> parent[x] != -1
  {
  }

  // ---- No code is cheaper ----

  /** The nodes up to m that hang from above m, or from nothing. */
  ghost function CutAt(parent: seq<int>, m: nat): (on: seq<bool>)
    ensures |on| == |parent| && forall x :: 0 <= x < |parent| ==> (on[x] <==> 1 <= x <= m && (parent[x] == -1 || parent[x] > m))
  {
    seq(|parent|, x requires 0 <= x < |parent| => 1 <= x <= m && (parent[x] == -1 || parent[x] > m))
  }

  ghost function Plain(weight: seq<int>): (w: seq<int>)
    ensures |w| == |weight| && forall x :: 0 <= x < |w| ==> w[x] == WeightOf(weight[x])
  {
    seq(|weight|, x requires 0 <= x < |weight| => WeightOf(weight[x]))
  }

  ghost function Climbs(parent: seq<int>): (d: seq<nat>)
    ensures |d| == |parent| && forall x :: 0 <= x < |d| ==> d[x] == Climb(parent, x)
  {
    seq(|parent|, x requires 0 <= x < |parent| => Climb(parent, x))
  }

  /** Moving the cut up over m puts m in the place of its children. */
  lemma CutRises(parent: seq<int>, left: seq<nat>, right: seq<nat>, leaves: nat, count: nat, m: nat)
    requires Shape(parent, left, right, leaves, count) && leaves < m <= count
    ensures left[m] < m && right[m] < m && left[m] != right[m]
    ensures var on := CutAt(parent, m - 1);
            && on[left[m]] && on[right[m]] && !on[m] && CutAt(parent, m) == on[left[m] := false][right[m] := false][m := true]
  {
    var a, b := left[m], right[m];
    assert parent[a] == m && parent[b] == m;
    assert parent[m] == -1 || parent[m] > m;
    var on := CutAt(parent, m - 1)[a := false][b := false][m := true];
    forall x | 0 <= x < |parent| ensures CutAt(parent, m)[x] == on[x] {
      if 1 <= x < m && x != a && x != b {
        assert parent[x] != m;
      }
    }
  }

  /** What the inner nodes up to m weigh. */
  ghost function InnerWeight(weight: seq<int>, leaves: nat, m: nat): int
    requires m < |weight|
  {
    if m <= leaves then 0 else InnerWeight(weight, leaves, m - 1) + WeightOf(weight[m])
  }

  lemma MergedWeight(parent: seq<int>, weight: seq<int>, left: seq<nat>, right: seq<nat>, leaves: nat, count: nat, total: nat, m: nat)
    requires Building(parent, weight, left, right, leaves, count, total) && leaves < m <= count
    ensures left[m] < m && right[m] < m && WeightOf(weight[m]) == WeightOf(weight[left[m]]) + WeightOf(weight[right[m]])
    ensures WeightOf(weight[left[m]]) >= 0
  {
    hide RootWeight, Retired, Growing, Chosen, Fib;
    assert 1 <= left[m] < m && 1 <= right[m] < m;
    DepthSmall(weight[left[m]]);
    DepthSmall(weight[right[m]]);
    AddWeightsParts(weight[left[m]], weight[right[m]]);
  }

  /** When m was made its children were the lightest nodes of the cut. */
  lemma ChildrenLeast(parent: seq<int>, weight: seq<int>, left: seq<nat>, right: seq<nat>, leaves: nat, count: nat, total: nat, m: nat)
    requires Building(parent, weight, left, right, leaves, count, total) && leaves < m <= count
    ensures left[m] < m && right[m] < m && Least(CutAt(parent, m - 1), Plain(weight), left[m], right[m])
  {
    hide RootWeight, Retired, Growing, Sums, Shallow, Bounded, WeightOf;
    CutRises(parent, left, right, leaves, count, m);
    var on, a, b := CutAt(parent, m - 1), left[m], right[m];
    LeafWeightsNatural(parent, weight, left, right, leaves, count, total);
    assert Lighter(weight, left, right, m, a);
    WeightMonotone(weight[a], weight[b]);
    forall x | 0 <= x < |on| && on[x] && x != a ensures WeightOf(weight[b]) <= WeightOf(weight[x]) {
      assert Lighter(weight, left, right, m, x);
      WeightMonotone(weight[b], weight[x]);
    }
  }

  lemma LeafWeightsNatural(parent: seq<int>, weight: seq<int>, left: seq<nat>, right: seq<nat>, leaves: nat, count: nat, total: nat)
    requires Building(parent, weight, left, right, leaves, count, total)
    ensures |weight| == |parent| == NODES && forall x :: 1 <= x <= count ==> WeightOf(weight[x]) >= 0
  {
  }

  /** Whatever depths the leaves have, the cut at m can have depths that cost less by what is below it. */
  lemma {:induction false} CutCheaper(parent: seq<int>, weight: seq<int>, left: seq<nat>, right: seq<nat>, leaves: nat, count: nat, total: nat,
                                      d: seq<nat>, top: nat, m: nat) returns (d': seq<nat>)
    requires Building(parent, weight, left, right, leaves, count, total) && leaves <= m <= count
    requires |d| == |parent| && Fits(CutAt(parent, leaves), d, top)
    ensures |weight| == |parent| == |d'| && m < |weight| && Fits(CutAt(parent, m), d', top)
    ensures Cost(CutAt(parent, m), Plain(weight), d') + InnerWeight(weight, leaves, m) <= Cost(CutAt(parent, leaves), Plain(weight), d)
  {
    hide Building, Fits, Cost, WeightOf;
    BuildingSizes(parent, weight, left, right, leaves, count, total);
    if m == leaves {
      d' := d;
    } else {
      var d1 := CutCheaper(parent, weight, left, right, leaves, count, total, d, top, m - 1);
      BuildingShape(parent, weight, left, right, leaves, count, total);
      CutRises(parent, left, right, leaves, count, m);
      ChildrenLeast(parent, weight, left, right, leaves, count, total, m);
      MergedWeight(parent, weight, left, right, leaves, count, total, m);
      d' := MergeCheaper(CutAt(parent, m - 1), Plain(weight), d1, top, left[m], right[m], m);
    }
  }

  lemma BuildingShape(parent: seq<int>, weight: seq<int>, left: seq<nat>, right: seq<nat>, leaves: nat, count: nat, total: nat)
    requires Building(parent, weight, left, right, leaves, count, total)
    ensures Shape(parent, left, right, leaves, count)
  {
  }

  /** At their depths in the tree the nodes of a cut cost what is above it. */
  lemma {:induction false} CutCost(parent: seq<int>, weight: seq<int>, left: seq<nat>, right: seq<nat>, leaves: nat, count: nat, total: nat, m: nat)
    requires Building(parent, weight, left, right, leaves, count, total) && leaves <= m <= count
    ensures |weight| == |parent| && count < |weight|
    ensures Cost(CutAt(parent, leaves), Plain(weight), Climbs(parent))
            == Cost(CutAt(parent, m), Plain(weight), Climbs(parent)) + InnerWeight(weight, leaves, m)
  {
    hide Building, WeightOf, Climb;
    BuildingSizes(parent, weight, left, right, leaves, count, total);
    if m > leaves {
      CutCost(parent, weight, left, right, leaves, count, total, m - 1);
      BuildingShape(parent, weight, left, right, leaves, count, total);
      CutRises(parent, left, right, leaves, count, m);
      MergedWeight(parent, weight, left, right, leaves, count, total, m);
      var a, b, c := left[m], right[m], Costs(Plain(weight), Climbs(parent));
      ChildrenDeeper(parent, left, right, leaves, count, m);
      TwoForOne(CutAt(parent, m - 1), c, a, b, m, c[m]);
      assert c[m := c[m]] == c;
      OneDeeper(WeightOf(weight[a]), WeightOf(weight[b]), Climb(parent, m));
    }
  }

  lemma OneDeeper(v: int, w: int, d: nat)
    ensures v * (1 + d) + w * (1 + d) == (v + w) * d + (v + w)
  {
  }

  lemma ChildrenDeeper(parent: seq<int>, left: seq<nat>, right: seq<nat>, leaves: nat, count: nat, m: nat)
    requires Shape(parent, left, right, leaves, count) && leaves < m <= count
    ensures left[m] < m && right[m] < m && Climb(parent, left[m]) == 1 + Climb(parent, m) == Climb(parent, right[m])
  {
    assert parent[left[m]] == m && parent[right[m]] == m;
  }

  lemma {:induction false} OnlyRoot(on: seq<bool>, c: seq<int>, n: nat, m: nat)
    requires n <= |on| == |c| && m < |on| && forall x :: 0 <= x < |on| && on[x] ==> x == m
    ensures Total(on, c, n) == if m < n && on[m] then c[m] else 0
  {
    if n > 0 {
      OnlyRoot(on, c, n - 1, m);
    }
  }

  lemma RootFree(parent: seq<int>, weight: seq<int>, left: seq<nat>, right: seq<nat>, leaves: nat, count: nat, total: nat)
    requires Tree(parent, weight, left, right, leaves, count, total)
    ensures |weight| == |parent| && Cost(CutAt(parent, count), Plain(weight), Climbs(parent)) == 0
  {
    hide WeightOf, RootWeight, Sums, Retired, Growing, Shallow, Bounded, Chosen;
    BuildingSizes(parent, weight, left, right, leaves, count, total);
    forall x | 0 <= x < |parent| && CutAt(parent, count)[x] ensures x == count {
    }
    OnlyRoot(CutAt(parent, count), Costs(Plain(weight), Climbs(parent)), |parent|, count);
    assert parent[count] == -1;
    assert Climb(parent, count) == 0;
  }

  /** What a code costs: for each symbol its weight times its length. */
  function CodeCost(w: seq<int>, len: seq<int>): int
    requires |w| == |len|
  {
    if len == [] then 0 else CodeCost(w[..|w| - 1], len[..|len| - 1]) + w[|w| - 1] * len[|len| - 1]
  }

  /** Lengths up to top that a prefix code can have. */
  ghost predicate Feasible(len: seq<nat>, top: nat) {
    (forall i :: 0 <= i < |len| ==> len[i] <= top) && KraftSum(len, top) <= Pow2(top)
  }

  /** No lengths that a prefix code can have, however long, cost less. */
  ghost predicate Cheapest(len: seq<int>, w: seq<int>) {
    |len| == |w| && forall other: seq<nat>, top: nat :: |other| == |w| && Feasible(other, top) ==> CodeCost(w, len) <= CodeCost(w, other)
  }

  /** The weights of the leaves. */
  ghost function LeafWeights(weight: seq<int>, leaves: nat): (w: seq<int>)
    requires leaves < |weight|
    ensures |w| == leaves && forall i :: 0 <= i < leaves ==> w[i] == WeightOf(weight[i + 1])
  {
    seq(leaves, i requires 0 <= i < leaves => WeightOf(weight[i + 1]))
  }

  /** A node's depth is its symbol's length. */
  ghost function ByNode(len: seq<nat>, n: nat): (d: seq<nat>)
    requires |len| < n
    ensures |d| == n && forall x :: 1 <= x <= |len| ==> d[x] == len[x - 1]
  {
    seq(n, x requires 0 <= x < n => if 1 <= x <= |len| then len[x - 1] else 0)
  }

  lemma {:induction false} LeafCosts(on: seq<bool>, w: seq<int>, d: seq<nat>, ws: seq<int>, len: seq<int>)
    requires |on| == |w| == |d| && |ws| == |len| < |on| && !on[0]
    requires forall x :: 1 <= x <= |len| ==> on[x] && w[x] == ws[x - 1] && d[x] == len[x - 1]
    ensures Total(on, Costs(w, d), |len| + 1) == CodeCost(ws, len)
  {
    if len != [] {
      LeafCosts(on, w, d, ws[..|ws| - 1], len[..|len| - 1]);
    }
  }

  lemma {:induction false} LeafShares(on: seq<bool>, d: seq<nat>, len: seq<int>, top: nat)
    requires |on| == |d| && |len| < |on| && !on[0] && forall i :: 0 <= i < |len| ==> len[i] <= top
    requires forall x :: 1 <= x <= |len| ==> on[x] && d[x] == len[x - 1]
    ensures Total(on, Shares(d, top), |len| + 1) == KraftSum(len, top)
  {
    if len != [] {
      LeafShares(on, d, len[..|len| - 1], top);
    }
  }

  lemma {:induction false} NothingBehind(on: seq<bool>, v: seq<int>, n: nat, k: nat)
    requires |on| == |v| && k <= n <= |on| && forall x :: k <= x < |on| ==> !on[x]
    ensures Total(on, v, n) == Total(on, v, k)
  {
    if n > k {
      NothingBehind(on, v, n - 1, k);
    }
  }

  lemma LeavesCut(parent: seq<int>, left: seq<nat>, right: seq<nat>, leaves: nat, count: nat)
    requires Shape(parent, left, right, leaves, count)
    ensures leaves < |parent| && forall x :: 0 <= x < |parent| ==> (CutAt(parent, leaves)[x] <==> 1 <= x <= leaves)
  {
  }

  /** The depths of the leaves of the tree are a cheapest code. */
  lemma TreeCheapest(parent: seq<int>, weight: seq<int>, left: seq<nat>, right: seq<nat>, leaves: nat, count: nat, total: nat, len: seq<Byte>)
    requires Tree(parent, weight, left, right, leaves, count, total) && DepthsOf(len, parent, leaves) && |len| == leaves
    ensures |weight| == NODES && Cheapest(len, LeafWeights(weight, leaves))
  {
    hide Building, WeightOf, Climb, KraftSum, CodeCost, Fits, Feasible;
    BuildingSizes(parent, weight, left, right, leaves, count, total);
    BuildingShape(parent, weight, left, right, leaves, count, total);
    LeavesCut(parent, left, right, leaves, count);
    var on, w, ws := CutAt(parent, leaves), Plain(weight), LeafWeights(weight, leaves);
    CutCost(parent, weight, left, right, leaves, count, total, count);
    RootFree(parent, weight, left, right, leaves, count, total);
    LeafCosts(on, w, Climbs(parent), ws, len);
    NothingBehind(on, Costs(w, Climbs(parent)), |on|, leaves + 1);
    forall other: seq<nat>, top: nat | |other| == leaves && Feasible(other, top) ensures CodeCost(ws, len) <= CodeCost(ws, other) {
      OtherDearer(parent, weight, left, right, leaves, count, total, other, top);
    }
  }

  /** Any other code costs at least what the inner nodes weigh. */
  lemma OtherDearer(parent: seq<int>, weight: seq<int>, left: seq<nat>, right: seq<nat>, leaves: nat, count: nat, total: nat, other: seq<nat>, top: nat)
    requires Building(parent, weight, left, right, leaves, count, total) && |other| == leaves && Feasible(other, top)
    ensures |weight| == NODES && count < NODES && InnerWeight(weight, leaves, count) <= CodeCost(LeafWeights(weight, leaves), other)
  {
    hide Building, WeightOf, KraftSum, CodeCost;
    BuildingSizes(parent, weight, left, right, leaves, count, total);
    BuildingShape(parent, weight, left, right, leaves, count, total);
    LeavesCut(parent, left, right, leaves, count);
    var on, w, d := CutAt(parent, leaves), Plain(weight), ByNode(other, |parent|);
    LeafShares(on, d, other, top);
    NothingBehind(on, Shares(d, top), |on|, leaves + 1);
    LeafCosts(on, w, d, LeafWeights(weight, leaves), other);
    NothingBehind(on, Costs(w, d), |on|, leaves + 1);
    var d' := CutCheaper(parent, weight, left, right, leaves, count, total, d, top, count);
    CostNatural(parent, weight, left, right, leaves, count, total, d');
  }

  lemma CostNatural(parent: seq<int>, weight: seq<int>, left: seq<nat>, right: seq<nat>, leaves: nat, count: nat, total: nat, d: seq<nat>)
    requires Building(parent, weight, left, right, leaves, count, total) && |d| == |parent|
    ensures |weight| == |parent| && Cost(CutAt(parent, count), Plain(weight), d) >= 0
  {
    hide Building, WeightOf;
    LeafWeightsNatural(parent, weight, left, right, leaves, count, total);
    var on, c := CutAt(parent, count), Costs(Plain(weight), d);
    forall x | 0 <= x < |on| && on[x] ensures c[x] >= 0 {
      ProductNatural(WeightOf(weight[x]), d[x]);
    }
    TotalNatural(on, c, |d|);
  }

  lemma ProductNatural(a: int, b: int)
    requires a >= 0 && b >= 0
    ensures a * b >= 0
  {
  }

  lemma {:induction false} CodeCostSet(w: seq<int>, len: seq<int>, i: nat, e: int)
    requires |w| == |len| && i < |len|
    ensures CodeCost(w, len[i := e]) == CodeCost(w, len) + w[i] * e - w[i] * len[i]
  {
    var n := |len| - 1;
    if i < n {
      CodeCostSet(w[..n], len[..n], i, e);
      assert len[i := e][..n] == len[..n][i := e];
    } else {
      assert len[i := e][..n] == len[..n];
    }
  }

  lemma {:induction false} KraftSet(len: seq<nat>, top: nat, i: nat, e: nat)
    requires i < |len| && e <= top && forall k :: 0 <= k < |len| ==> len[k] <= top
    ensures KraftSum(len[i := e], top) == KraftSum(len, top) + Pow2(top - e) - Pow2(top - len[i])
  {
    hide Pow2;
    var n := |len| - 1;
    if i < n {
      KraftSet(len[..n], top, i, e);
      assert len[i := e][..n] == len[..n][i := e];
    } else {
      assert len[i := e][..n] == len[..n];
    }
  }

  /** In a cheapest code a heavier symbol's word is no longer. */
  lemma HeavierShorter(len: seq<nat>, w: seq<int>, top: nat, i: nat, j: nat)
    requires Cheapest(len, w) && Feasible(len, top) && i < |len| && j < |len| && w[i] > w[j]
    ensures len[i] <= len[j]
  {
    hide CodeCost, KraftSum, Pow2;
    var one := len[i := len[j]];
    var other := one[j := len[i]];
    KraftSet(len, top, i, len[j]);
    KraftSet(one, top, j, len[i]);
    CodeCostSet(w, len, i, len[j]);
    CodeCostSet(w, one, j, len[i]);
    assert Feasible(other, top);
    CrossedStrictly(w[i], w[j], len[i], len[j]);
  }

  lemma CrossedStrictly(v: int, w: int, d: int, e: int)
    requires v > w
    ensures d > e ==> v * e + w * d < v * d + w * e
  {
    assert v * d + w * e - v * e - w * d == (v - w) * (d - e);
  }

  // ---- The limiter ----

  /** What flattening makes of a weight. */
  function Flatten(w: int): int {
    (1 + WeightOf(w) / 2) * 256
  }

  /** Flattening lowers the total unless all weights are at most 2, when they add up to 2 a leaf at most. */
  lemma {:induction false} FlattenTotal(weight: seq<int>, flat: seq<int>, leaves: nat, m: nat)
    requires Leaves(weight, leaves) && |flat| == NODES && m <= leaves
    requires forall i :: 1 <= i <= leaves ==> flat[i] == Flatten(weight[i])
    ensures LeafTotal(flat, m) <= LeafTotal(weight, m)
    ensures LeafTotal(flat, m) < LeafTotal(weight, m) || LeafTotal(weight, m) <= 2 * m
  {
    if m > 0 {
      FlattenTotal(weight, flat, leaves, m - 1);
      var w := WeightOf(weight[m]);
      assert WeightOf(flat[m]) == 1 + w / 2;
    }
  }

  method FlattenWeights(weight: array<int>, leaves: nat)
    requires Words(weight[..], leaves)
    modifies weight
    ensures Words(weight[..], leaves)
    ensures forall i :: 1 <= i <= leaves ==> weight[i] == Flatten(old(weight[i]))
  {
    var i := 1;
    while i <= leaves
      invariant 1 <= i <= leaves + 1 && weight[0] == 0
      invariant forall k :: 1 <= k < i ==> weight[k] == Flatten(old(weight[k]))
      invariant forall k :: i <= k < NODES ==> weight[k] == old(weight[k])
    {
      var j := weight[i] / 256;
      j := 1 + (j / 2);
      weight[i] := j * 256;
      i := i + 1;
    }
  }

  /** Parents of nodes 1..count lie above them. */
  ghost predicate Upward(parent: seq<int>, count: nat) {
    count < |parent| && forall x :: 1 <= x <= count ==> parent[x] == -1 || x < parent[x] <= count
  }

  method DepthFrom(parent: array<int>, i: nat, ghost count: nat) returns (j: nat)
    requires Upward(parent[..], count) && 1 <= i <= count
    ensures j == Climb(parent[..], i)
  {
    var k: int := i;
    j := 0;
    while parent[k] >= 0
      invariant i <= k <= count && j + Climb(parent[..], k) == Climb(parent[..], i)
      decreases parent.Length - k
    {
      k := parent[k];
      j := j + 1;
    }
  }

  /** Climbs from every leaf to the root. */
  method MeasureDepths(len: array<Byte>, parent: array<int>, leaves: nat, maxLen: nat, ghost count: nat)
    returns (tooLong: bool, ghost deep: nat)
    requires leaves == len.Length && leaves <= count && Upward(parent[..], count)
    requires forall x :: 1 <= x <= leaves ==> Climb(parent[..], x) < 256
    modifies len
    ensures DepthsOf(len[..], parent[..], leaves)
    ensures if tooLong then deep < leaves && len[deep] > maxLen else forall i :: 0 <= i < leaves ==> len[i] <= maxLen
  {
    tooLong, deep := false, 0;
    ghost var p := parent[..];
    hide Climb, Upward;
    var i := 1;
    while i <= leaves
      invariant 1 <= i <= leaves + 1
      invariant forall x :: 1 <= x < i ==> len[x - 1] == Climb(p, x)
      invariant if tooLong then deep < i - 1 && len[deep] > maxLen else forall x :: 0 <= x < i - 1 ==> len[x] <= maxLen
    {
      var j := DepthFrom(parent, i, count);
      len[i - 1] := j;
      if j > maxLen {
        deep := i - 1;
        tooLong := true;
      }
      i := i + 1;
    }
    forall i | 0 <= i < leaves ensures len[i] == Climb(p, i + 1) {
      assert len[i + 1 - 1] == Climb(p, i + 1);
    }
  }

  lemma TreeUpward(parent: seq<int>, weight: seq<int>, left: seq<nat>, right: seq<nat>, leaves: nat, count: nat, total: nat)
    requires Tree(parent, weight, left, right, leaves, count, total)
    ensures Upward(parent, count)
  {
  }

  /** A tree that is too deep has a total above 2 a leaf. */
  lemma TooLongIsHeavy(parent: seq<int>, weight: seq<int>, left: seq<nat>, right: seq<nat>, leaves: nat, count: nat, total: nat, x: nat)
    requires Tree(parent, weight, left, right, leaves, count, total) && 1 <= x <= leaves < count && leaves <= MAX_ALPHA
    requires Climb(parent, x) > 12
    ensures total > 2 * leaves
  {
    DepthsBounded(parent, weight, left, right, leaves, count, total, x);
  }

  /** The weight a symbol starts with. */
  function StartWeight(f: nat): nat {
    if f == 0 then 1 else f
  }

  function TotalWeight(freq: seq<nat>): nat {
    if freq == [] then 0 else TotalWeight(freq[..|freq| - 1]) + StartWeight(freq[|freq| - 1])
  }

  lemma {:induction false} StartTotal(weight: seq<int>, freq: seq<nat>)
    requires |weight| == NODES && |freq| < NODES
    requires forall i :: 0 <= i < |freq| ==> weight[i + 1] == StartWeight(freq[i]) * 256
    ensures LeafTotal(weight, |freq|) == TotalWeight(freq)
  {
    if freq != [] {
      StartTotal(weight, freq[..|freq| - 1]);
      assert WeightOf(weight[|freq|]) == StartWeight(freq[|freq| - 1]);
    }
  }

  function StartingWeights(freq: seq<nat>): (w: seq<int>)
    ensures |w| == |freq| && forall i :: 0 <= i < |freq| ==> w[i] == StartWeight(freq[i])
  {
    seq(|freq|, i requires 0 <= i < |freq| => StartWeight(freq[i]))
  }

  method StartWeights(weight: array<int>, freq: seq<nat>)
    requires weight.Length == NODES && 0 < |freq| <= MAX_ALPHA
    requires forall i :: 0 <= i < NODES ==> weight[i] >= 0
    modifies weight
    ensures Words(weight[..], |freq|) && LeafTotal(weight[..], |freq|) == TotalWeight(freq)
    ensures LeafWeights(weight[..], |freq|) == StartingWeights(freq)
  {
    var i := 0;
    while i < |freq|
      invariant i <= |freq|
      invariant forall k :: 0 <= k < i ==> weight[k + 1] == StartWeight(freq[k]) * 256
      invariant forall k :: 0 <= k < NODES ==> weight[k] >= 0
    {
      weight[i + 1] := (if freq[i] == 0 then 1 else freq[i]) * 256;
      i := i + 1;
    }
    weight[0] := 0;
    StartTotal(weight[..], freq);
    forall i | 1 <= i <= |freq| ensures weight[i] >= 256 && DepthOf(weight[i]) == 0 && WeightOf(weight[i]) == StartWeight(freq[i - 1]) {
      assert weight[i - 1 + 1] == StartWeight(freq[i - 1]) * 256;
    }
  }

  /** The weights after flattening k times. */
  function Flattened(w: seq<int>, k: nat): (f: seq<int>)
    ensures |f| == |w|
  {
    if k == 0 then w else
      var once := Flattened(w, k - 1);
      seq(|w|, i requires 0 <= i < |w| => 1 + once[i] / 2)
  }

  /** Lengths that fill the code space and that no others beat, some of them beyond maxLen. */
  ghost predicate Deep(len: seq<Byte>, w: seq<int>, maxLen: nat) {
    && Cheapest(len, w) && (forall i :: 0 <= i < |len| ==> len[i] <= 33) && KraftSum(len, 33) == Pow2(33)
    && exists i :: 0 <= i < |len| && len[i] > maxLen
  }

  ghost predicate TooDeep(w: seq<int>, maxLen: nat) {
    exists len :: Deep(len, w, maxLen)
  }

  /** The lengths are cheapest for the frequencies, flattened as often as a tree came out too deep. */
  ghost predicate MadeFrom(len: seq<Byte>, freq: seq<nat>, maxLen: nat) {
    exists k: nat :: MadeAfter(len, freq, maxLen, k)
  }

  ghost predicate MadeAfter(len: seq<Byte>, freq: seq<nat>, maxLen: nat, k: nat) {
    && Cheapest(len, Flattened(StartingWeights(freq), k))
    && forall j :: 0 <= j < k ==> TooDeep(Flattened(StartingWeights(freq), j), maxLen)
  }

  /** What has been tried so far: the weights in use, and the lengths last measured. */
  ghost predicate Tried(len: seq<Byte>, weight: seq<int>, leaves: nat, w0: seq<int>, maxLen: nat, k: nat, tooLong: bool) {
    && leaves < |weight| && LeafWeights(weight, leaves) == Flattened(w0, k) && Cheapest(len, Flattened(w0, k))
    && (forall j :: 0 <= j < k ==> TooDeep(Flattened(w0, j), maxLen))
    && if tooLong then Deep(len, Flattened(w0, k), maxLen) else Complete(len, maxLen)
  }

  /** Lengths up to maxLen that fill the code space. */
  ghost predicate Complete(len: seq<Byte>, maxLen: nat) {
    maxLen <= LONGEST && (forall i :: 0 <= i < |len| ==> 1 <= len[i] <= maxLen) && KraftSum(len, LONGEST) == Pow2(LONGEST)
  }

  lemma TriedFirst(len: seq<Byte>, weight: seq<int>, leaves: nat, w0: seq<int>, maxLen: nat, tooLong: bool)
    requires !tooLong ==> Complete(len, maxLen)
    requires leaves < |weight| && LeafWeights(weight, leaves) == w0 && Cheapest(len, w0) && (tooLong ==> Deep(len, w0, maxLen))
    ensures Tried(len, weight, leaves, w0, maxLen, 0, tooLong)
  {
  }

  lemma TriedAgain(len0: seq<Byte>, weight0: seq<int>, flat: seq<int>, len: seq<Byte>, weight: seq<int>, leaves: nat, w0: seq<int>,
                   maxLen: nat, k: nat, tooLong: bool)
    requires Tried(len0, weight0, leaves, w0, maxLen, k, true) && |w0| == leaves < |flat| && leaves < |weight|
    requires forall i :: 1 <= i <= leaves ==> flat[i] == Flatten(weight0[i])
    requires LeafWeights(weight, leaves) == LeafWeights(flat, leaves) && Cheapest(len, LeafWeights(flat, leaves))
    requires if tooLong then Deep(len, LeafWeights(flat, leaves), maxLen) else Complete(len, maxLen)
    ensures Tried(len, weight, leaves, w0, maxLen, k + 1, tooLong)
  {
    hide Deep, Cheapest, Flattened, Complete;
    FlattenedLeaves(weight0, flat, leaves, w0, k);
    assert TooDeep(Flattened(w0, k), maxLen);
  }

  lemma TriedLast(len: seq<Byte>, weight: seq<int>, leaves: nat, freq: seq<nat>, maxLen: nat, k: nat)
    requires Tried(len, weight, leaves, StartingWeights(freq), maxLen, k, false)
    ensures MadeFrom(len, freq, maxLen) && Complete(len, maxLen)
  {
    hide Deep, Cheapest, Flattened, Complete;
    assert MadeAfter(len, freq, maxLen, k);
  }

  /** A symbol that occurs more often than another has no longer word, if the first tree fits. */
  lemma MoreOftenShorter(len: seq<Byte>, freq: seq<nat>, maxLen: nat, i: nat, j: nat)
    requires MadeAfter(len, freq, maxLen, 0) && i < |freq| && j < |freq| && StartWeight(freq[i]) > StartWeight(freq[j])
    requires (forall k :: 0 <= k < |len| ==> len[k] <= LONGEST) && KraftSum(len, LONGEST) == Pow2(LONGEST)
    ensures |len| == |freq| && len[i] <= len[j]
  {
    hide KraftSum, Pow2;
    HeavierShorter(len, StartingWeights(freq), LONGEST, i, j);
  }

  /** Builds one tree and measures it; a tree too deep leaves the weights to be flattened. */
  method TryLengths(len: array<Byte>, heap: array<int>, weight: array<int>, parent: array<int>, leaves: nat, maxLen: nat,
                    ghost total: nat)
    returns (tooLong: bool)
    requires heap != weight && heap != parent && weight != parent && leaves == len.Length && 2 <= leaves
    requires heap.Length == HEAP_SIZE && parent.Length == NODES && Words(weight[..], leaves)
    requires LeafTotal(weight[..], leaves) == total < WEIGHT_LIMIT && 12 <= maxLen <= LONGEST
    modifies len, heap, weight, parent
    ensures Words(weight[..], leaves) && LeafTotal(weight[..], leaves) == total
    ensures tooLong ==> total > 2 * leaves
    ensures !tooLong ==> Complete(len[..], maxLen)
    ensures Cheapest(len[..], LeafWeights(old(weight[..]), leaves))
    ensures LeafWeights(weight[..], leaves) == LeafWeights(old(weight[..]), leaves)
    ensures tooLong ==> Deep(len[..], LeafWeights(old(weight[..]), leaves), maxLen)
  {
    hide Tree, LeafTotal, KraftSum, Climb, Pow2, Upward, Cheapest;
    ghost var was := weight[..];
    ghost var left, right := BuildTree(heap, weight, parent, leaves, total);
    SameLeafTotal(was, weight[..], leaves);
    ghost var count: nat := 2 * leaves - 1;
    ghost var p := parent[..];
    forall x | 1 <= x <= leaves ensures 1 <= Climb(p, x) <= 33 {
      DepthsBounded(p, weight[..], left, right, leaves, count, total, x);
    }
    TreeUpward(p, weight[..], left, right, leaves, count, total);
    ghost var deep;
    tooLong, deep := MeasureDepths(len, parent, leaves, maxLen, count);
    assert LeafWeights(weight[..], leaves) == LeafWeights(was, leaves);
    TreeCheapest(p, weight[..], left, right, leaves, count, total, len[..]);
    TreeKraft(p, weight[..], left, right, leaves, count, total, 33, len[..]);
    if tooLong {
      TooLongIsHeavy(p, weight[..], left, right, leaves, count, total, deep + 1);
    } else {
      TreeKraft(p, weight[..], left, right, leaves, count, total, LONGEST, len[..]);
    }
  }

  lemma {:induction false} SameLeafTotal(weight: seq<int>, weight': seq<int>, m: nat)
    requires m < |weight| && m < |weight'| && forall i :: 1 <= i <= m ==> weight[i] == weight'[i]
    ensures LeafTotal(weight, m) == LeafTotal(weight', m)
  {
    if m > 0 {
      SameLeafTotal(weight, weight', m - 1);
    }
  }

  /**
   * Fills len with the depths of a Huffman tree of freq, flattening the weights and starting over
   * while some depth exceeds maxLen. The lengths fit maxLen, Kraft's sum is exactly one, and no prefix code
   * is cheaper for the weights they were made from.
   */
  method MakeCodeLengths(len: array<Byte>, freq: seq<nat>, alphaSize: nat, maxLen: nat)
    requires 2 <= alphaSize <= MAX_ALPHA && alphaSize == |freq| == len.Length && 12 <= maxLen <= LONGEST
    requires TotalWeight(freq) < WEIGHT_LIMIT
    modifies len
    ensures forall i :: 0 <= i < alphaSize ==> 1 <= len[i] <= maxLen
    ensures KraftSum(len[..], LONGEST) == Pow2(LONGEST) && MadeFrom(len[..], freq, maxLen)
  {
    var heap, weight, parent := new int[HEAP_SIZE](_ => 0), new int[NODES](_ => 0), new int[NODES](_ => 0);
    hide Words, LeafTotal, KraftSum, Pow2, TotalWeight, MadeFrom, LeafWeights, StartingWeights, Complete;
    StartWeights(weight, freq);
    TryAll(len, heap, weight, parent, freq, maxLen);
    CompleteLengths(len[..], maxLen);
  }

  /** Builds trees until one fits. */
  method TryAll(len: array<Byte>, heap: array<int>, weight: array<int>, parent: array<int>, freq: seq<nat>, maxLen: nat)
    requires heap != weight && heap != parent && weight != parent && 2 <= len.Length == |freq| <= MAX_ALPHA && 12 <= maxLen <= LONGEST
    requires heap.Length == HEAP_SIZE && parent.Length == NODES == weight.Length && Words(weight[..], |freq|)
    requires LeafTotal(weight[..], |freq|) == TotalWeight(freq) < WEIGHT_LIMIT && LeafWeights(weight[..], |freq|) == StartingWeights(freq)
    modifies len, heap, weight, parent
    ensures Complete(len[..], maxLen) && MadeFrom(len[..], freq, maxLen)
  {
    hide Words, LeafTotal, TotalWeight, Cheapest, Deep, Tried, MadeFrom, StartingWeights, LeafWeights, Complete;
    ghost var total: nat, w0, k := TotalWeight(freq), StartingWeights(freq), 0;
    var tooLong := TryLengths(len, heap, weight, parent, |freq|, maxLen, total);
    TriedFirst(len[..], weight[..], |freq|, w0, maxLen, tooLong);
    while tooLong
      invariant Words(weight[..], |freq|) && LeafTotal(weight[..], |freq|) == total < WEIGHT_LIMIT
      invariant tooLong ==> total > 2 * |freq|
      invariant Tried(len[..], weight[..], |freq|, w0, maxLen, k, tooLong)
      decreases total, tooLong
    {
      tooLong, total := Retry(len, heap, weight, parent, |freq|, maxLen, total, w0, k);
      k := k + 1;
    }
    TriedLast(len[..], weight[..], |freq|, freq, maxLen, k);
  }

  lemma CompleteLengths(len: seq<Byte>, maxLen: nat)
    requires Complete(len, maxLen)
    ensures (forall i :: 0 <= i < |len| ==> 1 <= len[i] <= maxLen <= LONGEST) && KraftSum(len, LONGEST) == Pow2(LONGEST)
  {
  }

  /** Starts over with flattened weights. */
  method Retry(len: array<Byte>, heap: array<int>, weight: array<int>, parent: array<int>, leaves: nat, maxLen: nat,
               ghost total0: nat, ghost w0: seq<int>, ghost k: nat)
    returns (tooLong: bool, ghost total: nat)
    requires heap != weight && heap != parent && weight != parent && leaves == len.Length && 2 <= leaves && |w0| == leaves
    requires heap.Length == HEAP_SIZE && parent.Length == NODES && Words(weight[..], leaves) && 12 <= maxLen <= LONGEST
    requires LeafTotal(weight[..], leaves) == total0 < WEIGHT_LIMIT && total0 > 2 * leaves
    requires Tried(len[..], weight[..], leaves, w0, maxLen, k, true)
    modifies len, heap, weight, parent
    ensures Words(weight[..], leaves) && LeafTotal(weight[..], leaves) == total < total0
    ensures tooLong ==> total > 2 * leaves
    ensures Tried(len[..], weight[..], leaves, w0, maxLen, k + 1, tooLong)
  {
    hide Words, LeafTotal, KraftSum, Pow2, Cheapest, Deep, Tried, LeafWeights, Complete;
    ghost var was, len0 := weight[..], len[..];
    WordsSize(was, leaves);
    FlattenWeights(weight, leaves);
    ghost var flat := weight[..];
    FlattenedTotal(was, flat, leaves);
    total := LeafTotal(flat, leaves);
    tooLong := TryLengths(len, heap, weight, parent, leaves, maxLen, total);
    TriedAgain(len0, was, flat, len[..], weight[..], leaves, w0, maxLen, k, tooLong);
  }

  lemma FlattenedLeaves(weight: seq<int>, flat: seq<int>, leaves: nat, w0: seq<int>, k: nat)
    requires leaves < |weight| && leaves < |flat| && LeafWeights(weight, leaves) == Flattened(w0, k) && |w0| == leaves
    requires forall i :: 1 <= i <= leaves ==> flat[i] == Flatten(weight[i])
    ensures LeafWeights(flat, leaves) == Flattened(w0, k + 1)
  {
    forall i | 0 <= i < leaves ensures LeafWeights(flat, leaves)[i] == Flattened(w0, k + 1)[i] {
      assert flat[i + 1] == Flatten(weight[i + 1]);
    }
  }

  lemma WordsSize(weight: seq<int>, leaves: nat)
    requires Words(weight, leaves)
    ensures |weight| == NODES && leaves < NODES
  {
  }

  lemma FlattenedTotal(weight: seq<int>, flat: seq<int>, leaves: nat)
    requires Words(weight, leaves) && Words(flat, leaves) && LeafTotal(weight, leaves) > 2 * leaves
    requires forall i :: 1 <= i <= leaves ==> flat[i] == Flatten(weight[i])
    ensures 0 <= LeafTotal(flat, leaves) < LeafTotal(weight, leaves)
  {
    FlattenTotal(weight, flat, leaves, leaves);
    LeafTotalBounds(flat, leaves, leaves);
  }
}
