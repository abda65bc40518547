/** The binary heap of tree nodes ordered by weight; entry 0 is a sentinel of weight 0. */
module WeightHeap {

  const HEAP_SIZE := 260

  /** The entries 1..n of heap are node numbers known to weight. */
  ghost predicate Nodes(heap: seq<int>, weight: seq<int>, n: nat) {
    && n < |heap| == HEAP_SIZE
    && heap[0] == 0 && 0 < |weight| && weight[0] == 0
    && (forall i :: 0 <= i < |weight| ==> weight[i] >= 0)
    && forall i :: 1 <= i <= n ==> 0 < heap[i] < |weight|
  }

  ghost predicate Edge(heap: seq<int>, weight: seq<int>, i: nat, j: nat) {
    i < |heap| && j < |heap| && 0 <= heap[i] < |weight| && 0 <= heap[j] < |weight| && weight[heap[i]] <= weight[heap[j]]
  }

  ghost predicate Ordered(heap: seq<int>, weight: seq<int>, n: nat) {
    forall i :: 2 <= i <= n ==> Edge(heap, weight, i / 2, i)
  }

  /** Ordered but for the edge above z; what is above z is not above z's children either. */
  ghost predicate OrderedBelow(heap: seq<int>, weight: seq<int>, n: nat, z: nat) {
    && (forall i :: 2 <= i <= n && i != z ==> Edge(heap, weight, i / 2, i))
    && (forall i :: 2 <= i <= n && i / 2 == z && z >= 2 ==> Edge(heap, weight, z / 2, i))
  }

  /** Ordered but for the edges below z; what is above z is not above z's children either. */
  ghost predicate OrderedAbove(heap: seq<int>, weight: seq<int>, n: nat, z: nat) {
    && (forall i :: 2 <= i <= n && i / 2 != z ==> Edge(heap, weight, i / 2, i))
    && (forall i :: 2 <= i <= n && i / 2 == z && z >= 2 ==> Edge(heap, weight, z / 2, i))
  }

  function Members(heap: seq<int>, n: nat): multiset<int>
    requires n < |heap|
  {
    multiset(heap[1..n + 1])
  }

  lemma SwapMembers(heap: seq<int>, n: nat, i: nat, j: nat)
    requires 1 <= i <= n < |heap| && 1 <= j <= n
    ensures Members(heap[i := heap[j]][j := heap[i]], n) == Members(heap, n)
  {
    var s := heap[1..n + 1];
    assert heap[i := heap[j]][j := heap[i]][1..n + 1] == s[i - 1 := s[j - 1]][j - 1 := s[i - 1]];
  }

  lemma {:induction false} RootIsLeast(heap: seq<int>, weight: seq<int>, n: nat, i: nat)
    requires Nodes(heap, weight, n) && Ordered(heap, weight, n) && 1 <= i <= n
    ensures weight[heap[1]] <= weight[heap[i]]
    decreases i
  {
    if i > 1 {
      RootIsLeast(heap, weight, n, i / 2);
      assert Edge(heap, weight, i / 2, i);
    }
  }

  /** Moving the hole at z up to its parent. */
  lemma UpStep(heap: seq<int>, weight: seq<int>, n: nat, z: nat)
    requires Nodes(heap, weight, n) && 2 <= z <= n && OrderedBelow(heap, weight, n, z)
    requires weight[heap[z]] < weight[heap[z / 2]]
    ensures var next := heap[z := heap[z / 2]][z / 2 := heap[z]];
            Nodes(next, weight, n) && OrderedBelow(next, weight, n, z / 2) && Members(next, n) == Members(heap, n)
  {
    SwapMembers(heap, n, z, z / 2);
    var p := z / 2;
    var next := heap[z := heap[p]][p := heap[z]];
    forall i | 2 <= i <= n && i != p ensures Edge(next, weight, i / 2, i) {
      if i == z {
      } else if i / 2 == z {
        assert Edge(heap, weight, z / 2, i);
      } else if i / 2 == p {
        assert Edge(heap, weight, p, i);
      } else {
        assert Edge(heap, weight, i / 2, i);
      }
    }
    forall i | 2 <= i <= n && i / 2 == p && p >= 2 ensures Edge(next, weight, p / 2, i) {
      assert Edge(heap, weight, p / 2, p);
      if i != z {
        assert Edge(heap, weight, p, i);
      }
    }
  }

  /** cur is heap with tmp put into the hole. */
  ghost predicate Holding(heap: seq<int>, cur: seq<int>, hole: nat, tmp: int) {
    hole < |heap| && cur == heap[hole := tmp]
  }

  /** Overwriting the hole by entry j moves the hole to j. */
  lemma HoleMoves(heap: seq<int>, cur: seq<int>, hole: nat, j: nat, tmp: int)
    requires Holding(heap, cur, hole, tmp) && j < |heap| && j != hole
    ensures Holding(heap[hole := heap[j]], cur[hole := cur[j]][j := cur[hole]], j, tmp)
    ensures cur[j] == heap[j]
  {
  }

  /** The hole at z, with tmp for it, while sifting in a heap of n entries. */
  ghost predicate Sifting(heap: seq<int>, cur: seq<int>, weight: seq<int>, n: nat, z: nat, tmp: int, was: seq<int>) {
    && 1 <= z <= n && |was| == |heap| && Holding(heap, cur, z, tmp) && Nodes(cur, weight, n)
    && Members(cur, n) == Members(was, n)
  }

  lemma SiftingEntry(heap: seq<int>, cur: seq<int>, weight: seq<int>, n: nat, z: nat, tmp: int, was: seq<int>, j: nat)
    requires Sifting(heap, cur, weight, n, z, tmp, was) && j <= n
    ensures n < |heap| == |cur| && 0 < tmp < |weight| && cur[z] == tmp && (j != z ==> heap[j] == cur[j])
    ensures 0 <= cur[j] < |weight| && weight[cur[j]] >= 0 && (j == 0 ==> weight[cur[j]] == 0)
  {
    assert cur[z] == tmp;
  }

  method UpHeap(heap: array<int>, weight: array<int>, z: nat)
    requires heap != weight && 1 <= z && Nodes(heap[..], weight[..], z) && OrderedBelow(heap[..], weight[..], z, z)
    modifies heap
    ensures Nodes(heap[..], weight[..], z) && Ordered(heap[..], weight[..], z)
    ensures Members(heap[..], z) == old(Members(heap[..], z))
  {
    ghost var w, cur, was := weight[..], heap[..], heap[..];
    var zz, tmp := z, heap[z];
    assert cur[z := tmp] == cur;
    assert Sifting(heap[..], cur, w, z, zz, tmp, was);
    SiftingEntry(heap[..], cur, w, z, zz, tmp, was, zz / 2);
    hide OrderedBelow, Sifting, Nodes, Ordered, Members;
    while weight[tmp] < weight[heap[zz / 2]]
      invariant 1 <= zz <= z < heap.Length && 0 < tmp < weight.Length && weight[..] == w
      invariant 0 <= heap[zz / 2] < weight.Length
      invariant Sifting(heap[..], cur, w, z, zz, tmp, was) && OrderedBelow(cur, w, z, zz)
      decreases zz
    {
      UpMove(heap[..], cur, w, z, zz, tmp, was);
      cur := cur[zz := cur[zz / 2]][zz / 2 := cur[zz]];
      heap[zz] := heap[zz / 2];
      zz := zz / 2;
      SiftingEntry(heap[..], cur, w, z, zz, tmp, was, zz / 2);
    }
    SiftingEntry(heap[..], cur, w, z, zz, tmp, was, zz / 2);
    UpEnds(cur, w, z, zz);
    SiftingEnds(heap[..], cur, w, z, zz, tmp, was);
    heap[zz] := tmp;
  }

  lemma SiftingEnds(heap: seq<int>, cur: seq<int>, weight: seq<int>, n: nat, z: nat, tmp: int, was: seq<int>)
    requires Sifting(heap, cur, weight, n, z, tmp, was)
    ensures z < |heap| && n < |cur| == |was| && cur == heap[z := tmp] && Nodes(cur, weight, n)
    ensures Members(cur, n) == Members(was, n)
  {
  }

  lemma UpMove(heap: seq<int>, cur: seq<int>, weight: seq<int>, n: nat, z: nat, tmp: int, was: seq<int>)
    requires Sifting(heap, cur, weight, n, z, tmp, was) && OrderedBelow(cur, weight, n, z)
    requires 0 <= tmp < |weight| && z < |heap| && 0 <= heap[z / 2] < |weight| && weight[tmp] < weight[heap[z / 2]]
    ensures z >= 2
    ensures var cur' := cur[z := cur[z / 2]][z / 2 := cur[z]];
            Sifting(heap[z := heap[z / 2]], cur', weight, n, z / 2, tmp, was) && OrderedBelow(cur', weight, n, z / 2)
  {
    SiftingEntry(heap, cur, weight, n, z, tmp, was, z / 2);
    UpStep(cur, weight, n, z);
    HoleMoves(heap, cur, z, z / 2, tmp);
  }

  lemma UpEnds(heap: seq<int>, weight: seq<int>, n: nat, z: nat)
    requires Nodes(heap, weight, n) && 1 <= z <= n && OrderedBelow(heap, weight, n, z)
    requires weight[heap[z]] >= weight[heap[z / 2]]
    ensures Ordered(heap, weight, n)
  {
  }

  /** Moving the hole at z down to its lighter child y. */
  lemma DownStep(heap: seq<int>, weight: seq<int>, n: nat, z: nat, y: nat)
    requires Nodes(heap, weight, n) && 1 <= z && 2 <= y <= n && y / 2 == z && OrderedAbove(heap, weight, n, z)
    requires weight[heap[y]] <= weight[heap[z]]
    requires forall i :: 2 <= i <= n && i / 2 == z ==> weight[heap[y]] <= weight[heap[i]]
    ensures var next := heap[z := heap[y]][y := heap[z]];
            Nodes(next, weight, n) && OrderedAbove(next, weight, n, y) && Members(next, n) == Members(heap, n)
  {
    SwapMembers(heap, n, z, y);
    var next := heap[z := heap[y]][y := heap[z]];
    forall i | 2 <= i <= n && i / 2 != y ensures Edge(next, weight, i / 2, i) {
      if i == y {
      } else if i / 2 == z {
      } else if i == z {
        assert Edge(heap, weight, z / 2, y);
      } else {
        assert Edge(heap, weight, i / 2, i);
      }
    }
    forall i | 2 <= i <= n && i / 2 == y ensures Edge(next, weight, y / 2, i) {
      assert Edge(heap, weight, y, i);
    }
  }

  lemma DownEnds(heap: seq<int>, weight: seq<int>, n: nat, z: nat)
    requires Nodes(heap, weight, n) && 1 <= z && OrderedAbove(heap, weight, n, z)
    requires forall i :: 2 <= i <= n && i / 2 == z ==> weight[heap[z]] <= weight[heap[i]]
    requires z <= n
    ensures Ordered(heap, weight, n)
  {
  }

  /** The lighter child of z, as the sift picks it. */
  ghost predicate Lighter(heap: seq<int>, weight: seq<int>, n: nat, z: nat, y: nat) {
    && 2 <= y <= n && y / 2 == z
    && forall i :: 2 <= i <= n && i / 2 == z ==> Edge(heap, weight, y, i)
  }

  lemma DownMove(heap: seq<int>, cur: seq<int>, weight: seq<int>, n: nat, z: nat, y: nat, tmp: int, was: seq<int>)
    requires Sifting(heap, cur, weight, n, z, tmp, was) && OrderedAbove(cur, weight, n, z)
    requires Lighter(cur, weight, n, z, y) && Edge(cur, weight, y, z)
    ensures var cur' := cur[z := cur[y]][y := cur[z]];
            Sifting(heap[z := heap[y]], cur', weight, n, y, tmp, was) && OrderedAbove(cur', weight, n, y)
  {
    forall i | 2 <= i <= n && i / 2 == z ensures weight[cur[y]] <= weight[cur[i]] {
      assert Edge(cur, weight, y, i);
    }
    DownStep(cur, weight, n, z, y);
    HoleMoves(heap, cur, z, y, tmp);
  }

  lemma DownStops(cur: seq<int>, weight: seq<int>, n: nat, z: nat)
    requires Nodes(cur, weight, n) && 1 <= z <= n && OrderedAbove(cur, weight, n, z)
    requires 2 * z > n || exists y :: Lighter(cur, weight, n, z, y) && Edge(cur, weight, z, y)
    ensures Ordered(cur, weight, n)
  {
    forall i | 2 <= i <= n && i / 2 == z ensures weight[cur[z]] <= weight[cur[i]] {
      var y :| Lighter(cur, weight, n, z, y) && Edge(cur, weight, z, y);
      assert Edge(cur, weight, y, i);
    }
    DownEnds(cur, weight, n, z);
  }

  /** Picks the lighter child of the hole. */
  method PickChild(heap: array<int>, weight: array<int>, n: nat, z: nat, tmp: int, ghost cur: seq<int>, ghost was: seq<int>)
    returns (y: nat, stop: bool)
    requires Sifting(heap[..], cur, weight[..], n, z, tmp, was) && 2 * z <= n
    ensures Lighter(cur, weight[..], n, z, y)
    ensures if stop then Edge(cur, weight[..], z, y) else Edge(cur, weight[..], y, z)
  {
    y := z * 2;
    SiftingEntry(heap[..], cur, weight[..], n, z, tmp, was, y);
    if y < n {
      SiftingEntry(heap[..], cur, weight[..], n, z, tmp, was, y + 1);
      if weight[heap[y + 1]] < weight[heap[y]] {
        y := y + 1;
      }
    }
    stop := weight[tmp] < weight[heap[y]];
    forall i | 2 <= i <= n && i / 2 == z ensures Edge(cur, weight[..], y, i) {
      assert i == 2 * z || i == 2 * z + 1;
    }
  }

  method DownHeap(heap: array<int>, weight: array<int>, n: nat)
    requires heap != weight && Nodes(heap[..], weight[..], n) && OrderedAbove(heap[..], weight[..], n, 1)
    modifies heap
    ensures Nodes(heap[..], weight[..], n) && Ordered(heap[..], weight[..], n)
    ensures Members(heap[..], n) == old(Members(heap[..], n))
  {
    if n == 0 { return; }
    ghost var w, cur, was := weight[..], heap[..], heap[..];
    var zz, tmp := 1, heap[1];
    assert cur[1 := tmp] == cur;
    assert Sifting(heap[..], cur, w, n, zz, tmp, was);
    hide OrderedAbove, Sifting, Nodes, Ordered, Members, Lighter;
    while true
      invariant 1 <= zz <= n < heap.Length && weight[..] == w
      invariant Sifting(heap[..], cur, w, n, zz, tmp, was) && OrderedAbove(cur, w, n, zz)
      decreases n - zz
    {
      var yy := zz * 2;
      SiftingEnds(heap[..], cur, w, n, zz, tmp, was);
      if yy > n {
        DownStops(cur, w, n, zz);
        break;
      }
      var stop;
      yy, stop := PickChild(heap, weight, n, zz, tmp, cur, was);
      if stop {
        DownStops(cur, w, n, zz);
        break;
      }
      DownMove(heap[..], cur, w, n, zz, yy, tmp, was);
      LighterInside(cur, w, n, zz, yy);
      cur := cur[zz := cur[yy]][yy := cur[zz]];
      heap[zz] := heap[yy];
      zz := yy;
    }
    SiftingEnds(heap[..], cur, w, n, zz, tmp, was);
    heap[zz] := tmp;
  }

  lemma LighterInside(cur: seq<int>, weight: seq<int>, n: nat, z: nat, y: nat)
    requires Lighter(cur, weight, n, z, y) && z > 0
    ensures z < y <= n
  {
  }
}
