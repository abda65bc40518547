/** Why merging the two lightest nodes is right: no assignment of depths is cheaper than one with these two side by side. */
module Huffman {
  import opened HeaderBits

  /** The sum of v over the nodes that are on, among the first n. */
  function Total(on: seq<bool>, v: seq<int>, n: nat): int
    requires n <= |on| && n <= |v|
  {
    if n == 0 then 0 else Total(on, v, n - 1) + if on[n - 1] then v[n - 1] else 0
  }

  lemma {:induction false} TotalSet(on: seq<bool>, v: seq<int>, n: nat, i: nat, u: int)
    requires n <= |on| && n <= |v| && i < |v|
    ensures Total(on, v[i := u], n) == Total(on, v, n) + if i < n && on[i] then u - v[i] else 0
  {
    if n > 0 {
      TotalSet(on, v, n - 1, i, u);
    }
  }

  lemma {:induction false} TotalSwitch(on: seq<bool>, v: seq<int>, n: nat, i: nat, to: bool)
    requires n <= |on| && n <= |v| && i < |on| && on[i] != to
    ensures Total(on[i := to], v, n) == Total(on, v, n) + if i < n && i < |v| then (if to then v[i] else -v[i]) else 0
  {
    if n > 0 {
      TotalSwitch(on, v, n - 1, i, to);
    }
  }

  lemma {:induction false} TotalNatural(on: seq<bool>, v: seq<int>, n: nat)
    requires n <= |on| && n <= |v| && forall i :: 0 <= i < n && on[i] ==> v[i] >= 0
    ensures Total(on, v, n) >= 0 && forall i :: 0 <= i < n && on[i] ==> v[i] <= Total(on, v, n)
  {
    if n > 0 {
      TotalNatural(on, v, n - 1);
    }
  }

  /** What a node at a depth takes of the code space, in units of 2^-top. */
  function Share(top: nat, depth: nat): nat {
    if depth <= top then Pow2(top - depth) else 0
  }

  function Shares(d: seq<nat>, top: nat): (u: seq<int>)
    ensures |u| == |d| && forall i :: 0 <= i < |d| ==> u[i] == Share(top, d[i])
  {
    seq(|d|, i requires 0 <= i < |d| => Share(top, d[i]))
  }

  function Costs(w: seq<int>, d: seq<nat>): (c: seq<int>)
    requires |w| == |d|
    ensures |c| == |d| && forall i :: 0 <= i < |d| ==> c[i] == w[i] * d[i]
  {
    seq(|d|, i requires 0 <= i < |d| => w[i] * d[i])
  }

  function Taken(on: seq<bool>, d: seq<nat>, top: nat): int
    requires |on| == |d|
  {
    Total(on, Shares(d, top), |d|)
  }

  function Cost(on: seq<bool>, w: seq<int>, d: seq<nat>): int
    requires |on| == |w| == |d|
  {
    Total(on, Costs(w, d), |d|)
  }

  /** The nodes that are on find room at these depths. */
  ghost predicate Fits(on: seq<bool>, d: seq<nat>, top: nat) {
    && |on| == |d| && (forall i :: 0 <= i < |d| && on[i] ==> d[i] <= top)
    && Taken(on, d, top) <= Pow2(top)
  }

  lemma {:induction false} Pow2Sum(a: nat, b: nat)
    ensures Pow2(a + b) == Pow2(a) * Pow2(b)
  {
    if a > 0 {
      Pow2Sum(a - 1, b);
      assert a + b - 1 == a - 1 + b;
      assert Pow2(a) * Pow2(b) == 2 * (Pow2(a - 1) * Pow2(b));
    }
  }

  // ---- Changing one depth, or exchanging two ----

  lemma SetDepth(on: seq<bool>, w: seq<int>, d: seq<nat>, top: nat, i: nat, e: nat)
    requires |on| == |w| == |d| && i < |d| && on[i]
    ensures Taken(on, d[i := e], top) == Taken(on, d, top) + Share(top, e) - Share(top, d[i])
    ensures Cost(on, w, d[i := e]) == Cost(on, w, d) + w[i] * e - w[i] * d[i]
  {
    hide Share;
    assert Shares(d[i := e], top) == Shares(d, top)[i := Share(top, e)];
    assert Costs(w, d[i := e]) == Costs(w, d)[i := w[i] * e];
    TotalSet(on, Shares(d, top), |d|, i, Share(top, e));
    TotalSet(on, Costs(w, d), |d|, i, w[i] * e);
  }

  lemma ProductsCross(v: int, w: int, d: int, e: int)
    requires v <= w && d <= e
    ensures v * e + w * d <= v * d + w * e
  {
    assert (w - v) * (e - d) >= 0;
  }

  /** Exchanging a lighter node with a deeper one costs nothing. */
  lemma Exchange(on: seq<bool>, w: seq<int>, d: seq<nat>, top: nat, i: nat, j: nat)
    requires Fits(on, d, top) && |w| == |d| && i < |d| && j < |d| && on[i] && on[j] && w[i] <= w[j] && d[i] <= d[j]
    ensures Fits(on, d[i := d[j]][j := d[i]], top)
    ensures Cost(on, w, d[i := d[j]][j := d[i]]) <= Cost(on, w, d)
  {
    hide Share, Taken, Cost;
    var d1 := d[i := d[j]];
    SetDepth(on, w, d, top, i, d[j]);
    SetDepth(on, w, d1, top, j, d[i]);
    if i != j {
      ProductsCross(w[i], w[j], d[i], d[j]);
    }
  }

  /** The deepest of the nodes that are on, one perhaps left out. */
  lemma Deepest(on: seq<bool>, d: seq<nat>, but: int, some: nat) returns (x: nat)
    requires |on| == |d| && some < |d| && on[some] && some != but
    ensures x < |d| && on[x] && x != but && forall i :: 0 <= i < |d| && on[i] && i != but ==> d[i] <= d[x]
  {
    x := some;
    var n := 0;
    while n < |d|
      invariant n <= |d| && x < |d| && on[x] && x != but && forall i :: 0 <= i < n && on[i] && i != but ==> d[i] <= d[x]
    {
      if on[n] && n != but && d[n] > d[x] {
        x := n;
      }
      n := n + 1;
    }
  }

  lemma Multiples(d: nat, e: nat, top: nat, k: nat)
    requires d <= e <= top
    ensures (k + Pow2(e - d)) * Share(top, e) == k * Share(top, e) + Share(top, d)
  {
    hide Pow2;
    Pow2Sum(e - d, top - e);
    Distribute(k, Pow2(e - d), Pow2(top - e));
  }

  lemma Distribute(a: int, b: int, c: int)
    ensures (a + b) * c == a * c + b * c
  {
  }

  /** What nodes no deeper than e take is a multiple of what one at e takes. */
  lemma {:induction false} TakenMultiple(on: seq<bool>, d: seq<nat>, top: nat, e: nat, n: nat) returns (k: nat)
    requires n <= |d| == |on| && e <= top && forall i :: 0 <= i < n && on[i] ==> d[i] <= e
    ensures Total(on, Shares(d, top), n) == k * Share(top, e)
  {
    hide Share;
    if n == 0 {
      k := 0;
    } else {
      var k0 := TakenMultiple(on, d, top, e, n - 1);
      if on[n - 1] {
        k := k0 + Pow2(e - d[n - 1]);
        Multiples(d[n - 1], e, top, k0);
      } else {
        k := k0;
      }
    }
  }

  lemma ProductMonotone(a: nat, b: nat, u: nat)
    requires a <= b
    ensures a * u <= b * u
  {
  }

  lemma RoundUp(k: nat, u: nat, more: nat, limit: nat)
    requires k * u + more <= limit * u && more > 0
    ensures k * u + u <= limit * u
  {
    if k >= limit {
      ProductMonotone(limit, k, u);
    } else {
      ProductMonotone(k + 1, limit, u);
    }
  }

  /** The deepest node may as well be no deeper than the next: the room above it is free. */
  lemma Level(on: seq<bool>, w: seq<int>, d: seq<nat>, top: nat, a: nat, b: nat)
    requires Fits(on, d, top) && |w| == |d| && a < |d| && b < |d| && a != b && on[a] && on[b] && w[a] >= 0 && d[b] <= d[a]
    requires forall i :: 0 <= i < |d| && on[i] && i != a ==> d[i] <= d[b]
    ensures Fits(on, d[a := d[b]], top) && Cost(on, w, d[a := d[b]]) <= Cost(on, w, d)
  {
    hide Cost, Share;
    var e, rest := d[b], on[a := false];
    SetDepth(on, w, d, top, a, e);
    TotalSwitch(on, Shares(d, top), |d|, a, false);
    var k := TakenMultiple(rest, d, top, e, |d|);
    TotalMultiple(rest, d, top, |d|, k, e);
    TopMultiple(top, e);
    SharePositive(top, d[a]);
    RoundUp(k, Share(top, e), Share(top, d[a]), Pow2(e));
    ProductMonotone(e, d[a], w[a]);
  }

  lemma TotalMultiple(on: seq<bool>, d: seq<nat>, top: nat, n: nat, k: int, e: nat)
    requires n <= |d| == |on| && Total(on, Shares(d, top), n) == k * Share(top, e)
    ensures k * Share(top, e) >= 0
  {
    TotalNatural(on, Shares(d, top), n);
  }

  lemma SharePositive(top: nat, d: nat)
    requires d <= top
    ensures Share(top, d) > 0
  {
  }

  lemma TopMultiple(top: nat, e: nat)
    requires e <= top
    ensures Pow2(e) * Share(top, e) == Pow2(top)
  {
    Pow2Sum(e, top - e);
  }

  /** Two nodes go, one comes. */
  lemma TwoForOne(on: seq<bool>, v: seq<int>, a: nat, b: nat, m: nat, u: int)
    requires |on| == |v| && a < |v| && b < |v| && a != b && on[a] && on[b] && m < |v| && !on[m]
    ensures Total(on[a := false][b := false][m := true], v[m := u], |v|) == Total(on, v, |v|) - v[a] - v[b] + u
  {
    var on1 := on[a := false];
    var on2 := on1[b := false];
    TotalSwitch(on, v, |v|, a, false);
    TotalSwitch(on1, v, |v|, b, false);
    TotalSet(on2, v, |v|, m, u);
    TotalSwitch(on2, v[m := u], |v|, m, true);
  }

  /** Two nodes at the same depth cannot both be at the root. */
  lemma NotBothRoots(on: seq<bool>, d: seq<nat>, top: nat, a: nat, b: nat)
    requires Fits(on, d, top) && a < |d| && b < |d| && a != b && on[a] && on[b] && d[a] == d[b]
    ensures d[a] > 0
  {
    var u, on1 := Shares(d, top), on[a := false];
    TotalSwitch(on, u, |d|, a, false);
    TotalNatural(on1, u, |d|);
    assert Share(top, 0) == Pow2(top);
  }

  lemma ShareHalves(top: nat, e: nat)
    requires 0 < e <= top
    ensures Share(top, e - 1) == 2 * Share(top, e)
  {
  }

  /** Two nodes side by side, put together. */
  lemma Join(on: seq<bool>, w: seq<int>, d: seq<nat>, top: nat, a: nat, b: nat, m: nat) returns (d': seq<nat>)
    requires Fits(on, d, top) && |w| == |d| && a < |d| && b < |d| && a != b && on[a] && on[b] && d[a] == d[b]
    requires m < |d| && !on[m] && w[m] == w[a] + w[b]
    ensures Fits(on[a := false][b := false][m := true], d', top) && |d'| == |d|
    ensures Cost(on[a := false][b := false][m := true], w, d') + w[m] == Cost(on, w, d)
  {
    hide Share;
    NotBothRoots(on, d, top, a, b);
    var e: nat := d[a] - 1;
    ShareHalves(top, d[a]);
    d' := d[m := e];
    assert Shares(d', top) == Shares(d, top)[m := Share(top, e)] && Costs(w, d') == Costs(w, d)[m := w[m] * e];
    TwoForOne(on, Shares(d, top), a, b, m, Share(top, e));
    TwoForOne(on, Costs(w, d), a, b, m, w[m] * e);
    JoinProducts(w[a], w[b], d[a]);
  }

  lemma JoinProducts(v: int, w: int, d: nat)
    requires d > 0
    ensures (v + w) * (d - 1) + (v + w) == v * d + w * d
  {
  }

  /** a and b are on, and no lighter node is. */
  ghost predicate Least(on: seq<bool>, w: seq<int>, a: nat, b: nat) {
    && |on| == |w| && a < |w| && b < |w| && a != b && on[a] && on[b] && 0 <= w[a] <= w[b]
    && forall i :: 0 <= i < |w| && on[i] && i != a ==> w[b] <= w[i]
  }

  /** Whatever the depths, the two lightest nodes can be made one, and what is left costs less by their weight. */
  lemma MergeCheaper(on: seq<bool>, w: seq<int>, d: seq<nat>, top: nat, a: nat, b: nat, m: nat) returns (d': seq<nat>)
    requires Fits(on, d, top) && |w| == |d| && Least(on, w, a, b) && m < |d| && !on[m] && w[m] == w[a] + w[b]
    ensures Fits(on[a := false][b := false][m := true], d', top) && |d'| == |d|
    ensures Cost(on[a := false][b := false][m := true], w, d') + w[m] <= Cost(on, w, d)
  {
    hide Cost, Taken, Share;
    var x := Deepest(on, d, -1, a);
    Exchange(on, w, d, top, a, x);
    var d1 := d[a := d[x]][x := d[a]];
    var y := Deepest(on, d1, a, b);
    Exchange(on, w, d1, top, b, y);
    var d2 := d1[b := d1[y]][y := d1[b]];
    Level(on, w, d2, top, a, b);
    d' := Join(on, w, d2[a := d2[b]], top, a, b, m);
  }
}
