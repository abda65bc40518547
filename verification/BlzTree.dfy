/**
 * Trees of earlier positions, ordered by the strings standing there and re-rooted at every new position:
 * what splitting such a tree keeps, and what the way down it meets.
 */
module BlzTree {
  import opened Permutations
  import opened BlzPack

  // ---- Strings compared by their first m characters ----

  ghost predicate Same(x: seq<Byte>, p: nat, q: nat, k: nat) {
    p + k <= |x| && q + k <= |x| && x[p..p + k] == x[q..q + k]
  }

  predicate LexLe(x: seq<Byte>, p: nat, q: nat, m: nat)
    requires p + m <= |x| && q + m <= |x|
    decreases m
  {
    m == 0 || x[p] < x[q] || (x[p] == x[q] && LexLe(x, p + 1, q + 1, m - 1))
  }

  lemma SameAt(x: seq<Byte>, p: nat, q: nat, k: nat, i: nat)
    requires Same(x, p, q, k) && i < k
    ensures x[p + i] == x[q + i]
  {
    assert x[p..p + k][i] == x[q..q + k][i];
  }

  lemma SameTail(x: seq<Byte>, p: nat, q: nat, k: nat)
    requires Same(x, p, q, k) && k > 0
    ensures x[p] == x[q] && Same(x, p + 1, q + 1, k - 1)
  {
    SameAt(x, p, q, k, 0);
    assert x[p + 1..p + k] == x[p..p + k][1..] && x[q + 1..q + k] == x[q..q + k][1..];
  }

  lemma SameCons(x: seq<Byte>, p: nat, q: nat, k: nat)
    requires p + k <= |x| && q + k <= |x| && k > 0 && x[p] == x[q] && Same(x, p + 1, q + 1, k - 1)
    ensures Same(x, p, q, k)
  {
    assert x[p..p + k] == [x[p]] + x[p + 1..p + k] && x[q..q + k] == [x[q]] + x[q + 1..q + k];
  }

  lemma SamePrefix(x: seq<Byte>, p: nat, q: nat, k: nat, j: nat)
    requires Same(x, p, q, k) && j <= k
    ensures Same(x, p, q, j)
  {
    assert x[p..p + j] == x[p..p + k][..j] && x[q..q + j] == x[q..q + k][..j];
  }

  lemma SameTrans(x: seq<Byte>, p: nat, q: nat, r: nat, k: nat)
    requires Same(x, p, q, k) && Same(x, q, r, k)
    ensures Same(x, p, r, k) && Same(x, q, p, k)
  {
  }

  lemma {:induction false} LePrefix(x: seq<Byte>, p: nat, q: nat, m: nat, k: nat)
    requires p + m <= |x| && q + m <= |x| && k <= m && LexLe(x, p, q, m)
    ensures LexLe(x, p, q, k)
    decreases k
  {
    if k > 0 && x[p] == x[q] {
      LePrefix(x, p + 1, q + 1, m - 1, k - 1);
    }
  }

  lemma {:induction false} LeTrans(x: seq<Byte>, p: nat, q: nat, r: nat, m: nat)
    requires p + m <= |x| && q + m <= |x| && r + m <= |x| && LexLe(x, p, q, m) && LexLe(x, q, r, m)
    ensures LexLe(x, p, r, m)
    decreases m
  {
    if m > 0 && x[p] == x[q] && x[q] == x[r] {
      LeTrans(x, p + 1, q + 1, r + 1, m - 1);
    }
  }

  lemma {:induction false} SameLe(x: seq<Byte>, p: nat, q: nat, m: nat)
    requires Same(x, p, q, m)
    ensures LexLe(x, p, q, m)
    decreases m
  {
    if m > 0 {
      SameTail(x, p, q, m);
      SameLe(x, p + 1, q + 1, m - 1);
    }
  }

  lemma {:induction false} LeBoth(x: seq<Byte>, p: nat, q: nat, m: nat)
    requires p + m <= |x| && q + m <= |x| && LexLe(x, p, q, m) && LexLe(x, q, p, m)
    ensures Same(x, p, q, m)
    decreases m
  {
    if m > 0 {
      LeBoth(x, p + 1, q + 1, m - 1);
      SameCons(x, p, q, m);
    }
  }

  /** The first difference decides. */
  lemma {:induction false} LeDiff(x: seq<Byte>, p: nat, q: nat, k: nat, m: nat)
    requires Same(x, p, q, k) && k < m && p + m <= |x| && q + m <= |x| && x[p + k] < x[q + k]
    ensures LexLe(x, p, q, m) && !LexLe(x, q, p, m)
    decreases k
  {
    if k > 0 {
      SameTail(x, p, q, k);
      LeDiff(x, p + 1, q + 1, k - 1, m - 1);
    }
  }

  /** A string between two that agree with a third for a while agrees with it as long. */
  lemma Between(x: seq<Byte>, lo: nat, p: nat, hi: nat, cur: nat, k: nat, m: nat)
    requires k <= m && lo + m <= |x| && p + m <= |x| && hi + m <= |x| && Same(x, lo, cur, k) && Same(x, hi, cur, k)
    requires LexLe(x, lo, p, m) && LexLe(x, p, hi, m)
    ensures Same(x, p, cur, k)
  {
    LePrefix(x, lo, p, m, k);
    LePrefix(x, p, hi, m, k);
    SameTrans(x, hi, cur, hi, k);
    SameTrans(x, lo, cur, lo, k);
    SameTrans(x, hi, cur, lo, k);
    SameLe(x, hi, lo, k);
    LeTrans(x, p, hi, lo, k);
    LeBoth(x, lo, p, k);
    SameTrans(x, p, lo, cur, k);
    SameTrans(x, lo, p, lo, k);
  }

  /** Beyond a string that differs from cur after len characters, no string agrees with cur longer. */
  lemma BeyondDiffers(x: seq<Byte>, q: nat, p: nat, cur: nat, len: nat, m: nat, below: bool)
    requires len < m && q + m <= |x| && p + m <= |x| && cur + m <= |x| && Same(x, p, cur, len)
    requires if below then x[p + len] < x[cur + len] && LexLe(x, q, p, m) else x[p + len] > x[cur + len] && LexLe(x, p, q, m)
    ensures !Same(x, q, cur, len + 1)
  {
    if Same(x, q, cur, len + 1) {
      SameTrans(x, q, cur, q, len + 1);
      SameTrans(x, p, cur, p, len);
      if below {
        LePrefix(x, q, p, m, len + 1);
        SameLe(x, cur, q, len + 1);
        LeTrans(x, cur, q, p, len + 1);
        LeDiff(x, p, cur, len, len + 1);
      } else {
        LePrefix(x, p, q, m, len + 1);
        SameLe(x, q, cur, len + 1);
        LeTrans(x, p, q, cur, len + 1);
        LeDiff(x, cur, p, len, len + 1);
      }
    }
  }

  // ---- Trees ----

  datatype Tree = Leaf | Node(pos: nat, lt: Tree, gt: Tree)

  function Positions(t: Tree): set<nat> {
    match t
    case Leaf => {}
    case Node(p, l, g) => {p} + Positions(l) + Positions(g)
  }

  /** All positions are below a bound. */
  predicate Below(t: Tree, bound: nat) {
    match t
    case Leaf => true
    case Node(p, l, g) => p < bound && Below(l, bound) && Below(g, bound)
  }

  lemma {:induction false} BelowAt(t: Tree, bound: nat, p: nat)
    requires Below(t, bound) && p in Positions(t)
    ensures p < bound
  {
    var Node(r, l, g) := t;
    if p in Positions(l) {
      BelowAt(l, bound, p);
    } else if p in Positions(g) {
      BelowAt(g, bound, p);
    }
  }

  lemma {:induction false} BelowMonotone(t: Tree, bound: nat, more: nat)
    requires Below(t, bound) && bound <= more
    ensures Below(t, more)
  {
    match t
    case Leaf =>
    case Node(p, l, g) =>
      BelowMonotone(l, bound, more);
      BelowMonotone(g, bound, more);
  }

  /** Newer positions above older ones; strings to the left no greater, to the right no smaller, for m characters. */
  ghost predicate Ordered(x: seq<Byte>, m: nat, t: Tree) {
    match t
    case Leaf => true
    case Node(p, l, g) =>
      && p + m <= |x| && Ordered(x, m, l) && Ordered(x, m, g) && Positions(l) !! Positions(g)
      && Below(l, p) && Below(g, p) && LeftOf(x, m, l, p) && RightOf(x, m, g, p)
  }

  ghost predicate LeftOf(x: seq<Byte>, m: nat, t: Tree, p: nat)
    requires p + m <= |x|
  {
    forall q :: q in Positions(t) ==> q + m <= |x| && LexLe(x, q, p, m)
  }

  ghost predicate RightOf(x: seq<Byte>, m: nat, t: Tree, p: nat)
    requires p + m <= |x|
  {
    forall q :: q in Positions(t) ==> q + m <= |x| && LexLe(x, p, q, m)
  }

  lemma {:induction false} OrderedPrefix(x: seq<Byte>, m: nat, k: nat, t: Tree)
    requires Ordered(x, m, t) && k <= m
    ensures Ordered(x, k, t)
  {
    match t
    case Leaf =>
    case Node(p, l, g) =>
      OrderedPrefix(x, m, k, l);
      OrderedPrefix(x, m, k, g);
      forall q | q in Positions(l) ensures LexLe(x, q, p, k) {
        LePrefix(x, q, p, m, k);
      }
      forall q | q in Positions(g) ensures LexLe(x, p, q, k) {
        LePrefix(x, p, q, m, k);
      }
  }

  /** What is below cur and what is above it; a string equal to cur's for m characters gives way to cur. */
  function Split(x: seq<Byte>, m: nat, t: Tree, cur: nat, depth: nat): (Tree, Tree)
    requires cur + m <= |x| && Below(t, cur)
  {
    match t
    case Leaf => (Leaf, Leaf)
    case Node(p, l, g) =>
      if depth == 0 then (Leaf, Leaf)
      else
        var k := Common(x, p, cur, 0, m);
        if k == m then (l, g)
        else if x[p + k] < x[cur + k] then
          var s := Split(x, m, g, cur, depth - 1);
          (Node(p, l, s.0), s.1)
        else
          var s := Split(x, m, l, cur, depth - 1);
          (s.0, Node(p, s.1, g))
  }

  lemma CommonSame(x: seq<Byte>, p: nat, cur: nat, m: nat)
    requires p < cur && cur + m <= |x|
    ensures var k := Common(x, p, cur, 0, m);
            Same(x, p, cur, k) && Same(x, cur, p, k) && (k < m ==> x[p + k] != x[cur + k])
  {
    CommonAgrees(x, p, cur, 0, m);
  }

  lemma {:induction false} SplitPositions(x: seq<Byte>, m: nat, t: Tree, cur: nat, depth: nat)
    requires cur + m <= |x| && Below(t, cur) && Ordered(x, m, t)
    ensures var s := Split(x, m, t, cur, depth);
            && Positions(s.0) <= Positions(t) && Positions(s.1) <= Positions(t) && Positions(s.0) !! Positions(s.1)
    decreases t
  {
    hide LexLe, Split, Common, Ordered, LeftOf, RightOf, Below;
    SplitNothing(x, m, t, cur);
    if t.Node? && depth > 0 {
      var Node(p, l, g) := t;
      SplitNode(x, m, t, cur, depth);
      OrderedParts(x, m, p, l, g, cur);
      SplitPositions(x, m, l, cur, depth - 1);
      SplitPositions(x, m, g, cur, depth - 1);
      NotBelow(l, p);
      NotBelow(g, p);
    }
  }

  lemma NotBelow(t: Tree, p: nat)
    requires Below(t, p)
    ensures p !in Positions(t)
  {
    if p in Positions(t) {
      BelowAt(t, p, p);
    }
  }

  lemma {:induction false} BelowSubset(t: Tree, u: Tree, bound: nat)
    requires Below(t, bound) && Positions(u) <= Positions(t)
    ensures Below(u, bound)
    decreases u
  {
    match u
    case Leaf =>
    case Node(p, l, g) =>
      assert p in Positions(u);
      BelowAt(t, bound, p);
      BelowSubset(t, l, bound);
      BelowSubset(t, g, bound);
  }

  /** Splitting keeps the order, and cur stands between the halves. */
  lemma {:induction false} SplitOrdered(x: seq<Byte>, m: nat, t: Tree, cur: nat, depth: nat)
    requires cur + m <= |x| && Below(t, cur) && Ordered(x, m, t)
    ensures var s := Split(x, m, t, cur, depth);
            Ordered(x, m, s.0) && Ordered(x, m, s.1) && LeftOf(x, m, s.0, cur) && RightOf(x, m, s.1, cur)
    decreases t
  {
    hide LexLe, Split, Common, Ordered, LeftOf, RightOf, Below, Positions;
    LeafOrdered(x, m, cur);
    SplitNothing(x, m, t, cur);
    if t.Node? && depth > 0 {
      var Node(p, l, g) := t;
      SplitNode(x, m, t, cur, depth);
      OrderedParts(x, m, p, l, g, cur);
      var k := Common(x, p, cur, 0, m);
      CommonSame(x, p, cur, m);
      if k == m {
        SameLe(x, p, cur, m);
        SameLe(x, cur, p, m);
        LeftOfTrans(x, m, l, p, cur);
        RightOfTrans(x, m, g, p, cur);
      } else if x[p + k] < x[cur + k] {
        LeDiff(x, p, cur, k, m);
        SplitPositions(x, m, g, cur, depth - 1);
        SplitOrdered(x, m, g, cur, depth - 1);
        NodeLeft(x, m, p, l, g, Split(x, m, g, cur, depth - 1).0, cur);
      } else {
        LeDiff(x, cur, p, k, m);
        SplitPositions(x, m, l, cur, depth - 1);
        SplitOrdered(x, m, l, cur, depth - 1);
        NodeRight(x, m, p, l, g, Split(x, m, l, cur, depth - 1).1, cur);
      }
    }
  }

  lemma LeafOrdered(x: seq<Byte>, m: nat, cur: nat)
    requires cur + m <= |x|
    ensures Ordered(x, m, Leaf) && LeftOf(x, m, Leaf, cur) && RightOf(x, m, Leaf, cur)
  {
  }

  lemma SplitNothing(x: seq<Byte>, m: nat, t: Tree, cur: nat)
    requires cur + m <= |x| && Below(t, cur)
    ensures Split(x, m, t, cur, 0) == (Leaf, Leaf)
    ensures t == Leaf ==> forall depth :: Split(x, m, t, cur, depth) == (Leaf, Leaf)
  {
  }

  lemma OrderedParts(x: seq<Byte>, m: nat, p: nat, l: Tree, g: Tree, cur: nat)
    requires Ordered(x, m, Node(p, l, g)) && Below(Node(p, l, g), cur)
    ensures p + m <= |x| && p < cur && Ordered(x, m, l) && Ordered(x, m, g) && LeftOf(x, m, l, p) && RightOf(x, m, g, p)
    ensures Below(l, p) && Below(g, p) && Below(l, cur) && Below(g, cur) && Positions(l) !! Positions(g)
  {
  }

  lemma NodeOrdered(x: seq<Byte>, m: nat, p: nat, l: Tree, g: Tree)
    requires p + m <= |x| && Ordered(x, m, l) && Ordered(x, m, g) && Positions(l) !! Positions(g)
    requires Below(l, p) && Below(g, p) && LeftOf(x, m, l, p) && RightOf(x, m, g, p)
    ensures Ordered(x, m, Node(p, l, g))
  {
    hide Below, LeftOf, RightOf, Positions;
  }

  lemma NodeLeftOf(x: seq<Byte>, m: nat, p: nat, l: Tree, g: Tree, cur: nat)
    requires p + m <= |x| && cur + m <= |x| && LexLe(x, p, cur, m) && LeftOf(x, m, l, cur) && LeftOf(x, m, g, cur)
    ensures LeftOf(x, m, Node(p, l, g), cur)
  {
    hide LexLe;
    assert Positions(Node(p, l, g)) == {p} + Positions(l) + Positions(g);
  }

  lemma NodeRightOf(x: seq<Byte>, m: nat, p: nat, l: Tree, g: Tree, cur: nat)
    requires p + m <= |x| && cur + m <= |x| && LexLe(x, cur, p, m) && RightOf(x, m, l, cur) && RightOf(x, m, g, cur)
    ensures RightOf(x, m, Node(p, l, g), cur)
  {
    hide LexLe;
    assert Positions(Node(p, l, g)) == {p} + Positions(l) + Positions(g);
  }

  lemma PartOf(x: seq<Byte>, m: nat, t: Tree, u: Tree, p: nat)
    requires p + m <= |x| && Positions(u) <= Positions(t)
    ensures LeftOf(x, m, t, p) ==> LeftOf(x, m, u, p)
    ensures RightOf(x, m, t, p) ==> RightOf(x, m, u, p)
  {
    hide LexLe;
  }

  /** A part of what is above p takes its place to the right of p, all of it no greater than cur. */
  lemma NodeLeft(x: seq<Byte>, m: nat, p: nat, l: Tree, g: Tree, a: Tree, cur: nat)
    requires Ordered(x, m, Node(p, l, g)) && Below(Node(p, l, g), cur) && Ordered(x, m, a) && Positions(a) <= Positions(g)
    requires cur + m <= |x| && LeftOf(x, m, a, cur) && LexLe(x, p, cur, m)
    ensures Ordered(x, m, Node(p, l, a)) && LeftOf(x, m, Node(p, l, a), cur)
  {
    hide LexLe, Ordered, LeftOf, RightOf, Below, Positions;
    OrderedParts(x, m, p, l, g, cur);
    BelowSubset(g, a, p);
    PartOf(x, m, g, a, p);
    LeftOfTrans(x, m, l, p, cur);
    NodeOrdered(x, m, p, l, a);
    NodeLeftOf(x, m, p, l, a, cur);
  }

  lemma NodeRight(x: seq<Byte>, m: nat, p: nat, l: Tree, g: Tree, b: Tree, cur: nat)
    requires Ordered(x, m, Node(p, l, g)) && Below(Node(p, l, g), cur) && Ordered(x, m, b) && Positions(b) <= Positions(l)
    requires cur + m <= |x| && RightOf(x, m, b, cur) && LexLe(x, cur, p, m)
    ensures Ordered(x, m, Node(p, b, g)) && RightOf(x, m, Node(p, b, g), cur)
  {
    hide LexLe, Ordered, LeftOf, RightOf, Below, Positions;
    OrderedParts(x, m, p, l, g, cur);
    BelowSubset(l, b, p);
    PartOf(x, m, l, b, p);
    RightOfTrans(x, m, g, p, cur);
    NodeOrdered(x, m, p, b, g);
    NodeRightOf(x, m, p, b, g, cur);
  }

  lemma SplitNode(x: seq<Byte>, m: nat, t: Tree, cur: nat, depth: nat)
    requires cur + m <= |x| && Below(t, cur) && t.Node? && depth > 0
    ensures var k := Common(x, t.pos, cur, 0, m);
            Split(x, m, t, cur, depth)
            == if k == m then (t.lt, t.gt)
               else if x[t.pos + k] < x[cur + k] then
                 (Node(t.pos, t.lt, Split(x, m, t.gt, cur, depth - 1).0), Split(x, m, t.gt, cur, depth - 1).1)
               else (Split(x, m, t.lt, cur, depth - 1).0, Node(t.pos, Split(x, m, t.lt, cur, depth - 1).1, t.gt))
  {
  }

  lemma LeftOfTrans(x: seq<Byte>, m: nat, t: Tree, p: nat, cur: nat)
    requires p + m <= |x| && cur + m <= |x| && LexLe(x, p, cur, m) && LeftOf(x, m, t, p)
    ensures LeftOf(x, m, t, cur)
  {
    forall q | q in Positions(t) ensures LexLe(x, q, cur, m) {
      LeTrans(x, q, p, cur, m);
    }
  }

  lemma RightOfTrans(x: seq<Byte>, m: nat, t: Tree, p: nat, cur: nat)
    requires p + m <= |x| && cur + m <= |x| && LexLe(x, cur, p, m) && RightOf(x, m, t, p)
    ensures RightOf(x, m, t, cur)
  {
    forall q | q in Positions(t) ensures LexLe(x, cur, q, m) {
      LeTrans(x, cur, p, q, m);
    }
  }

  /** The tree re-rooted at cur. */
  function Rerooted(x: seq<Byte>, m: nat, t: Tree, cur: nat, depth: nat): Tree
    requires cur + m <= |x| && Below(t, cur)
  {
    var s := Split(x, m, t, cur, depth);
    Node(cur, s.0, s.1)
  }

  lemma RerootedOrdered(x: seq<Byte>, m: nat, t: Tree, cur: nat, depth: nat)
    requires cur + m <= |x| && Below(t, cur) && Ordered(x, m, t)
    ensures var r := Rerooted(x, m, t, cur, depth);
            Ordered(x, m, r) && Positions(r) <= Positions(t) + {cur} && cur in Positions(r) && Below(r, cur + 1)
  {
    hide LexLe, Split, Ordered, LeftOf, RightOf, Positions;
    SplitPositions(x, m, t, cur, depth);
    SplitOrdered(x, m, t, cur, depth);
    var s := Split(x, m, t, cur, depth);
    BelowSubset(t, s.0, cur);
    BelowSubset(t, s.1, cur);
    BelowMonotone(s.0, cur, cur + 1);
    BelowMonotone(s.1, cur, cur + 1);
    NodeOrdered(x, m, cur, s.0, s.1);
    NodePositions(cur, s.0, s.1);
  }

  /**
   * With depth enough, a position is lost only to cur, and only if it agrees with cur for all of the
   * m characters that can still matter.
   */
  lemma {:induction false} LostToCur(x: seq<Byte>, m: nat, t: Tree, cur: nat, depth: nat, q: nat)
    requires cur + m <= |x| && Below(t, cur) && Ordered(x, m, t)
    requires Below(t, depth)
    requires q in Positions(t)
    ensures var s := Split(x, m, t, cur, depth);
            q in Positions(s.0) || q in Positions(s.1) || Same(x, q, cur, m)
    decreases t
  {
    hide Split, Common, LexLe, Ordered, LeftOf, RightOf, Below, Positions;
    var p, l, g := LostParts(x, m, t, cur, depth, q);
    SplitNode(x, m, t, cur, depth);
    OrderedParts(x, m, p, l, g, cur);
    var k := Common(x, p, cur, 0, m);
    CommonSame(x, p, cur, m);
    if k < m {
      if x[p + k] < x[cur + k] {
        if q in Positions(g) {
          BelowMonotone(g, p, depth - 1);
          LostToCur(x, m, g, cur, depth - 1, q);
        }
        NodePositions(p, l, Split(x, m, g, cur, depth - 1).0);
      } else {
        if q in Positions(l) {
          BelowMonotone(l, p, depth - 1);
          LostToCur(x, m, l, cur, depth - 1, q);
        }
        NodePositions(p, Split(x, m, l, cur, depth - 1).1, g);
      }
    }
  }

  lemma LostParts(x: seq<Byte>, m: nat, t: Tree, cur: nat, depth: nat, q: nat) returns (p: nat, l: Tree, g: Tree)
    requires Below(t, depth) && q in Positions(t)
    ensures t == Node(p, l, g) && p < depth && (q == p || q in Positions(l) || q in Positions(g))
  {
    p, l, g := t.pos, t.lt, t.gt;
  }

  lemma NodePositions(p: nat, l: Tree, g: Tree)
    ensures Positions(Node(p, l, g)) == {p} + Positions(l) + Positions(g)
  {
  }
}
