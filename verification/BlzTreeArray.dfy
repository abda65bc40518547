/** The trees as they are kept: two words for every position, and slots filled in while going down. */
module BlzTreeArray {
  import opened Permutations
  import opened BlzPack
  import opened BlzTree

  /** The words from root r on hold tree t. */
  ghost predicate Rep(nodes: seq<nat>, r: nat, t: Tree)
    decreases t
  {
    match t
    case Leaf => r == NO_MATCH
    case Node(p, l, g) =>
      r == p && p < NO_MATCH && 2 * p + 1 < |nodes| && Rep(nodes, nodes[2 * p], l) && Rep(nodes, nodes[2 * p + 1], g)
  }

  /** Words i and i + 1 of the positions in t are alike. */
  ghost predicate Alike(nodes: seq<nat>, other: seq<nat>, t: Tree) {
    && |other| == |nodes|
    && forall p :: p in Positions(t) && 2 * p + 1 < |nodes| ==> other[2 * p] == nodes[2 * p] && other[2 * p + 1] == nodes[2 * p + 1]
  }

  lemma {:induction false} RepFrame(nodes: seq<nat>, other: seq<nat>, r: nat, t: Tree)
    requires Rep(nodes, r, t) && Alike(nodes, other, t)
    ensures Rep(other, r, t)
    decreases t
  {
    match t
    case Leaf =>
    case Node(p, l, g) =>
      assert p in Positions(t);
      RepFrame(nodes, other, nodes[2 * p], l);
      RepFrame(nodes, other, nodes[2 * p + 1], g);
  }

  /** fin differs from now in slots s and g and in the words of t only. */
  ghost predicate Fills(now: seq<nat>, fin: seq<nat>, s: nat, g: nat, t: Tree) {
    && |fin| == |now|
    && forall i :: 0 <= i < |now| && i != s && i != g && i / 2 !in Positions(t) ==> fin[i] == now[i]
  }

  /** However slots s and g come to hold the parts, cur's two words then hold the whole. */
  ghost predicate Completes(now: seq<nat>, s: nat, g: nat, t: Tree, parts: (Tree, Tree), cur: nat, whole: (Tree, Tree)) {
    && s < |now| && g < |now| && 2 * cur + 1 < |now|
    && forall fin: seq<nat> :: Fills(now, fin, s, g, t) && Rep(fin, fin[s], parts.0) && Rep(fin, fin[g], parts.1) ==>
         Rep(fin, fin[2 * cur], whole.0) && Rep(fin, fin[2 * cur + 1], whole.1)
  }

  lemma CompletesStart(now: seq<nat>, t: Tree, parts: (Tree, Tree), cur: nat)
    requires 2 * cur + 1 < |now|
    ensures Completes(now, 2 * cur, 2 * cur + 1, t, parts, cur, parts)
  {
  }

  lemma AlikeOutside(now: seq<nat>, fin: seq<nat>, s: nat, g: nat, t: Tree, u: Tree)
    requires Fills(now, fin, s, g, t) && Positions(u) !! Positions(t) && s / 2 !in Positions(u) && g / 2 !in Positions(u)
    ensures Alike(now, fin, u)
  {
    forall p | p in Positions(u) && 2 * p + 1 < |now| ensures fin[2 * p] == now[2 * p] && fin[2 * p + 1] == now[2 * p + 1] {
      assert 2 * p / 2 == p && (2 * p + 1) / 2 == p;
    }
  }

  lemma AlikeUpdate(now: seq<nat>, s: nat, v: nat, t: Tree)
    requires s < |now| && s / 2 !in Positions(t)
    ensures Alike(now, now[s := v], t)
  {
    forall p | p in Positions(t) && 2 * p + 1 < |now| ensures now[s := v][2 * p] == now[2 * p] && now[s := v][2 * p + 1] == now[2 * p + 1] {
      assert 2 * p / 2 == p && (2 * p + 1) / 2 == p;
    }
  }

  /** Slot s takes p, whose right or left word becomes the slot; the rest of t goes on. */
  lemma CompletesDown(now: seq<nat>, s: nat, g: nat, p: nat, l: Tree, r: Tree, a: Tree, b: Tree, cur: nat,
                      whole: (Tree, Tree), less: bool)
    requires var t := Node(p, l, r);
             && Rep(now, p, t) && s != g && Positions(l) !! Positions(r) && p !in Positions(l) && p !in Positions(r)
             && s < |now| && g < |now| && s / 2 !in Positions(t) && g / 2 !in Positions(t)
             && if less then Completes(now, s, g, t, (Node(p, l, a), b), cur, whole)
                else Completes(now, s, g, t, (a, Node(p, b, r)), cur, whole)
    ensures if less then Completes(now[s := p], 2 * p + 1, g, r, (a, b), cur, whole)
            else Completes(now[g := p], s, 2 * p, l, (a, b), cur, whole)
  {
    hide Rep, Positions;
    var now' := if less then now[s := p] else now[g := p];
    var s', g', t' := if less then 2 * p + 1 else s, if less then g else 2 * p, if less then r else l;
    DownSizes(now, p, l, r);
    forall fin: seq<nat> | Fills(now', fin, s', g', t') && Rep(fin, fin[s'], a) && Rep(fin, fin[g'], b)
      ensures Rep(fin, fin[2 * cur], whole.0) && Rep(fin, fin[2 * cur + 1], whole.1)
    {
      CompletesAt(now, s, g, p, l, r, a, b, cur, whole, less, fin);
    }
  }

  lemma DownSizes(now: seq<nat>, p: nat, l: Tree, r: Tree)
    requires Rep(now, p, Node(p, l, r))
    ensures p < NO_MATCH && 2 * p + 1 < |now| && Rep(now, now[2 * p], l) && Rep(now, now[2 * p + 1], r)
  {
  }

  lemma CompletesAt(now: seq<nat>, s: nat, g: nat, p: nat, l: Tree, r: Tree, a: Tree, b: Tree, cur: nat,
                    whole: (Tree, Tree), less: bool, fin: seq<nat>)
    requires var t := Node(p, l, r);
             && Rep(now, p, t) && s != g && Positions(l) !! Positions(r) && p !in Positions(l) && p !in Positions(r)
             && s < |now| && g < |now| && s / 2 !in Positions(t) && g / 2 !in Positions(t)
             && if less then Completes(now, s, g, t, (Node(p, l, a), b), cur, whole)
                else Completes(now, s, g, t, (a, Node(p, b, r)), cur, whole)
    requires if less then Fills(now[s := p], fin, 2 * p + 1, g, r) else Fills(now[g := p], fin, s, 2 * p, l)
    requires 2 * p + 1 < |now| == |fin|
    requires if less then Rep(fin, fin[2 * p + 1], a) && Rep(fin, fin[g], b) else Rep(fin, fin[s], a) && Rep(fin, fin[2 * p], b)
    ensures Rep(fin, fin[2 * cur], whole.0) && Rep(fin, fin[2 * cur + 1], whole.1)
  {
    var t := Node(p, l, r);
    var parts := if less then (Node(p, l, a), b) else (a, Node(p, b, r));
    DownSizes(now, p, l, r);
    NodePositions(p, l, r);
    hide Rep, Positions;
    DownFills(now, fin, s, g, p, l, r, less);
    if less {
      DownRep(now, fin, s, g, p, l, r, a, true);
    } else {
      DownRep(now, fin, g, s, p, r, l, b, false);
    }
    assert Fills(now, fin, s, g, t) && Rep(fin, fin[s], parts.0) && Rep(fin, fin[g], parts.1);
  }

  lemma DownFills(now: seq<nat>, fin: seq<nat>, s: nat, g: nat, p: nat, l: Tree, r: Tree, less: bool)
    requires s < |now| && g < |now|
    requires if less then Fills(now[s := p], fin, 2 * p + 1, g, r) else Fills(now[g := p], fin, s, 2 * p, l)
    ensures Fills(now, fin, s, g, Node(p, l, r))
  {
    forall i | 0 <= i < |now| && i != s && i != g && i / 2 !in Positions(Node(p, l, r)) ensures fin[i] == now[i] {
      assert i / 2 != p;
    }
  }

  /** The node put into a slot, with the subtree it keeps and the part that fills its other word. */
  lemma DownRep(now: seq<nat>, fin: seq<nat>, s: nat, g: nat, p: nat, kept: Tree, rest: Tree, a: Tree, less: bool)
    requires s < |now| && g < |now| && s != g && p < NO_MATCH && 2 * p + 1 < |now|
    requires Rep(now, now[if less then 2 * p else 2 * p + 1], kept)
    requires Positions(kept) !! Positions(rest) && p !in Positions(kept) && p !in Positions(rest)
    requires s / 2 !in Positions(kept) && s / 2 != p && g / 2 !in Positions(kept) && g / 2 != p && s / 2 !in Positions(rest)
    requires if less then Fills(now[s := p], fin, 2 * p + 1, g, rest) else Fills(now[s := p], fin, g, 2 * p, rest)
    requires Rep(fin, fin[if less then 2 * p + 1 else 2 * p], a)
    ensures Rep(fin, fin[s], if less then Node(p, kept, a) else Node(p, a, kept))
  {
    hide Rep, Positions, Alike;
    var k := if less then 2 * p else 2 * p + 1;
    assert fin[s] == p;
    assert k / 2 == p && fin[k] == now[k];
    AlikeUpdate(now, s, p, kept);
    RepFrame(now, now[s := p], now[k], kept);
    assert (2 * p + 1) / 2 == p && 2 * p / 2 == p;
    if less {
      AlikeOutside(now[s := p], fin, 2 * p + 1, g, rest, kept);
    } else {
      AlikeOutside(now[s := p], fin, g, 2 * p, rest, kept);
    }
    RepFrame(now[s := p], fin, now[k], kept);
    RepNode(fin, p, if less then kept else a, if less then a else kept);
  }

  lemma RepNode(nodes: seq<nat>, p: nat, l: Tree, g: Tree)
    requires p < NO_MATCH && 2 * p + 1 < |nodes| && Rep(nodes, nodes[2 * p], l) && Rep(nodes, nodes[2 * p + 1], g)
    ensures Rep(nodes, p, Node(p, l, g))
  {
  }

  // ---- Going down from a root ----

  /** On the way down: t is what is left to be split, slots s and g wait for its parts. */
  ghost predicate Descending(x: seq<Byte>, m: nat, cur: nat, now: seq<nat>, was: seq<nat>, t0: Tree, t: Tree, pos: nat,
                             s: nat, g: nat, depth: nat, whole: (Tree, Tree)) {
    && cur + m <= |x| && cur < |x| < NO_MATCH && |now| == |was| == 2 * |x|
    && Ordered(x, m, t) && Below(t, cur) && Below(t, s / 2) && Below(t, g / 2) && s != g && s / 2 <= cur && g / 2 <= cur
    && Positions(t) <= Positions(t0) && Rep(now, pos, t)
    && (s / 2 == cur || s / 2 in Positions(t0)) && (g / 2 == cur || g / 2 in Positions(t0))
    && Untouched(now, was, t0, cur)
    && Completes(now, s, g, t, Split(x, m, t, cur, depth), cur, whole)
  }

  /** Words of cur and of the tree's positions apart, nothing has changed. */
  ghost predicate Untouched(now: seq<nat>, was: seq<nat>, t0: Tree, cur: nat) {
    && |now| == |was|
    && forall i :: 0 <= i < |now| && i / 2 != cur && i / 2 !in Positions(t0) ==> now[i] == was[i]
  }

  lemma DescendStart(x: seq<Byte>, m: nat, cur: nat, now: seq<nat>, t: Tree, pos: nat, depth: nat)
    requires cur + m <= |x| && cur < |x| < NO_MATCH && |now| == 2 * |x| && Ordered(x, m, t) && Below(t, cur) && Rep(now, pos, t)
    ensures Descending(x, m, cur, now, now, t, t, pos, 2 * cur, 2 * cur + 1, depth, Split(x, m, t, cur, depth))
  {
    assert 2 * cur / 2 == cur && (2 * cur + 1) / 2 == cur;
    CompletesStart(now, t, Split(x, m, t, cur, depth), cur);
  }

  lemma DescendHere(x: seq<Byte>, m: nat, cur: nat, now: seq<nat>, was: seq<nat>, t0: Tree, t: Tree, pos: nat,
                    s: nat, g: nat, depth: nat, whole: (Tree, Tree))
    requires Descending(x, m, cur, now, was, t0, t, pos, s, g, depth, whole)
    ensures cur + m <= |x| && cur < |x| < NO_MATCH && |now| == 2 * |x| && s < |now| && g < |now| && Ordered(x, m, t) && Below(t, cur)
    ensures Positions(t) <= Positions(t0)
    ensures if pos == NO_MATCH then t == Leaf
            else t.Node? && t.pos == pos && pos < cur && 2 * pos + 1 < |now| && pos + m <= |x| && pos < s / 2 && pos < g / 2
  {
  }

  /** One step down past a string less than cur, or greater. */
  lemma DescendDown(x: seq<Byte>, m: nat, cur: nat, now: seq<nat>, was: seq<nat>, t0: Tree, t: Tree, pos: nat,
                    s: nat, g: nat, depth: nat, whole: (Tree, Tree), k: nat)
    requires Descending(x, m, cur, now, was, t0, t, pos, s, g, depth, whole) && pos != NO_MATCH && depth > 0
    requires pos < cur && k == Common(x, pos, cur, 0, m) && k < m
    ensures t.Node?
    ensures x[pos + k] < x[cur + k] ==>
              Descending(x, m, cur, now[s := pos], was, t0, t.gt, now[2 * pos + 1], 2 * pos + 1, g, depth - 1, whole)
              && now[s := pos][2 * pos + 1] == now[2 * pos + 1]
    ensures x[pos + k] >= x[cur + k] ==>
              Descending(x, m, cur, now[g := pos], was, t0, t.lt, now[2 * pos], s, 2 * pos, depth - 1, whole)
              && now[g := pos][2 * pos] == now[2 * pos]
  {
    hide Completes, Ordered, Split, Common, Below, Untouched;
    DescendNode(x, m, cur, now, t, pos, s, g, k, depth);
    var p, l, r := t.pos, t.lt, t.gt;
    var s', less := Split(x, m, if x[pos + k] < x[cur + k] then r else l, cur, depth - 1), x[pos + k] < x[cur + k];
    CompletesDown(now, s, g, p, l, r, s'.0, s'.1, cur, whole, less);
    assert (2 * p + 1) / 2 == p && 2 * p / 2 == p;
    var slot, rest := if less then s else g, if less then r else l;
    AlikeUpdate(now, slot, p, rest);
    RepFrame(now, now[slot := p], now[if less then 2 * p + 1 else 2 * p], rest);
    TouchOne(now, was, t0, cur, slot, p);
  }

  lemma TouchOne(now: seq<nat>, was: seq<nat>, t0: Tree, cur: nat, slot: nat, v: nat)
    requires Untouched(now, was, t0, cur) && slot < |now| && (slot / 2 == cur || slot / 2 in Positions(t0))
    ensures Untouched(now[slot := v], was, t0, cur)
  {
  }

  lemma DescendNode(x: seq<Byte>, m: nat, cur: nat, now: seq<nat>, t: Tree, pos: nat, s: nat, g: nat, k: nat, depth: nat)
    requires cur + m <= |x| && Ordered(x, m, t) && Below(t, cur) && Below(t, s / 2) && Below(t, g / 2) && Rep(now, pos, t)
    requires pos != NO_MATCH && depth > 0 && pos < cur && k == Common(x, pos, cur, 0, m) && k < m
    ensures t.Node? && t.pos == pos && Ordered(x, m, t.lt) && Ordered(x, m, t.gt) && Positions(t.lt) !! Positions(t.gt)
    ensures Below(t.lt, pos) && Below(t.gt, pos) && Below(t.lt, cur) && Below(t.gt, cur)
    ensures Below(t.lt, s / 2) && Below(t.gt, s / 2) && Below(t.lt, g / 2) && Below(t.gt, g / 2)
    ensures pos !in Positions(t.lt) && pos !in Positions(t.gt) && s / 2 !in Positions(t) && g / 2 !in Positions(t)
    ensures x[pos + k] != x[cur + k]
    ensures Split(x, m, t, cur, depth)
            == if x[pos + k] < x[cur + k] then
                 (Node(pos, t.lt, Split(x, m, t.gt, cur, depth - 1).0), Split(x, m, t.gt, cur, depth - 1).1)
               else (Split(x, m, t.lt, cur, depth - 1).0, Node(pos, Split(x, m, t.lt, cur, depth - 1).1, t.gt))
  {
    hide Common, LexLe, Split, LeftOf, RightOf, Positions;
    CommonSame(x, pos, cur, m);
    SplitNode(x, m, t, cur, depth);
    OrderedParts(x, m, pos, t.lt, t.gt, cur);
    NotBelow(t, s / 2);
    NotBelow(t, g / 2);
    NotBelow(t.lt, pos);
    NotBelow(t.gt, pos);
  }

  /** The end: the slots are filled, and cur is the root of the whole. */
  lemma DescendEnds(x: seq<Byte>, m: nat, cur: nat, now: seq<nat>, was: seq<nat>, t0: Tree, t: Tree, pos: nat,
                    s: nat, g: nat, depth: nat, whole: (Tree, Tree), a: nat, b: nat)
    requires Descending(x, m, cur, now, was, t0, t, pos, s, g, depth, whole)
    requires var parts := Split(x, m, t, cur, depth);
             && Rep(now, a, parts.0) && Rep(now, b, parts.1) && Positions(parts.0) + Positions(parts.1) <= Positions(t)
    ensures var fin := now[s := a][g := b];
            Rep(fin, cur, Node(cur, whole.0, whole.1)) && Untouched(fin, was, t0, cur)
  {
    hide Ordered, Split, Below, Rep, Alike;
    var parts := Split(x, m, t, cur, depth);
    var fin := now[s := a][g := b];
    NotBelow(t, s / 2);
    NotBelow(t, g / 2);
    SlotsRep(now, s, g, a, b, parts.0, a);
    SlotsRep(now, s, g, a, b, parts.1, b);
    assert Fills(now, fin, s, g, t);
    assert Rep(fin, fin[2 * cur], whole.0) && Rep(fin, fin[2 * cur + 1], whole.1);
    RootRep(fin, cur, whole);
    TouchOne(now, was, t0, cur, s, a);
    TouchOne(now[s := a], was, t0, cur, g, b);
  }

  lemma RootRep(nodes: seq<nat>, cur: nat, whole: (Tree, Tree))
    requires cur < NO_MATCH && 2 * cur + 1 < |nodes| && Rep(nodes, nodes[2 * cur], whole.0) && Rep(nodes, nodes[2 * cur + 1], whole.1)
    ensures Rep(nodes, cur, Node(cur, whole.0, whole.1))
  {
  }

  /** Filling the slots leaves a tree that has neither among its positions. */
  lemma SlotsRep(now: seq<nat>, s: nat, g: nat, a: nat, b: nat, u: Tree, r: nat)
    requires Rep(now, r, u) && s < |now| && g < |now| && s / 2 !in Positions(u) && g / 2 !in Positions(u)
    ensures Rep(now[s := a][g := b], r, u)
  {
    AlikeUpdate(now, s, a, u);
    RepFrame(now, now[s := a], r, u);
    AlikeUpdate(now[s := a], g, b, u);
    RepFrame(now[s := a], now[s := a][g := b], r, u);
  }

  /** At the bottom, or out of depth: what is left is dropped. */
  lemma DescendBottom(x: seq<Byte>, m: nat, cur: nat, now: seq<nat>, was: seq<nat>, t0: Tree, t: Tree, pos: nat,
                      s: nat, g: nat, depth: nat, whole: (Tree, Tree))
    requires Descending(x, m, cur, now, was, t0, t, pos, s, g, depth, whole) && (pos == NO_MATCH || depth == 0)
    ensures s < |now| && g < |now|
    ensures var fin := now[s := NO_MATCH][g := NO_MATCH];
            Rep(fin, cur, Node(cur, whole.0, whole.1)) && Untouched(fin, was, t0, cur)
  {
    DescendHere(x, m, cur, now, was, t0, t, pos, s, g, depth, whole);
    SplitNothing(x, m, t, cur);
    DescendEnds(x, m, cur, now, was, t0, t, pos, s, g, depth, whole, NO_MATCH, NO_MATCH);
  }

  /** A string equal to cur's gives up its place and its subtrees. */
  lemma DescendEqual(x: seq<Byte>, m: nat, cur: nat, now: seq<nat>, was: seq<nat>, t0: Tree, t: Tree, pos: nat,
                     s: nat, g: nat, depth: nat, whole: (Tree, Tree))
    requires Descending(x, m, cur, now, was, t0, t, pos, s, g, depth, whole) && pos != NO_MATCH && depth > 0
    requires pos < cur && Common(x, pos, cur, 0, m) == m
    ensures s < |now| && g < |now| && 2 * pos + 1 < |now|
    ensures var fin := now[s := now[2 * pos]][g := now[2 * pos + 1]];
            Rep(fin, cur, Node(cur, whole.0, whole.1)) && Untouched(fin, was, t0, cur)
  {
    DescendHere(x, m, cur, now, was, t0, t, pos, s, g, depth, whole);
    SplitNode(x, m, t, cur, depth);
    DescendEnds(x, m, cur, now, was, t0, t, pos, s, g, depth, whole, now[2 * pos], now[2 * pos + 1]);
  }
}
