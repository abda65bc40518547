/** The cyclic rotations of a block and their order. */
module Rotations {
  import opened Permutations

  function Pow256(h: nat): (p: nat)
    ensures p > 0
  {
    if h == 0 then 1 else 256 * Pow256(h - 1)
  }

  lemma {:induction false} Pow256Add(a: nat, b: nat)
    ensures Pow256(a + b) == Pow256(a) * Pow256(b)
  {
    if a != 0 {
      Pow256Add(a - 1, b);
      assert Pow256(a + b) == 256 * (Pow256(a - 1) * Pow256(b));
    }
  }

  function Next(n: nat, i: nat): nat
    requires i < n
  {
    if i + 1 == n then 0 else i + 1
  }

  function Prev(n: nat, i: nat): nat
    requires i < n
  {
    if i == 0 then n - 1 else i - 1
  }

  /** i + h modulo n, for a step of at most n. */
  function Advance(n: nat, i: nat, h: nat): (j: nat)
    requires i < n && h <= n
    ensures j < n
  {
    if i + h < n then i + h else i + h - n
  }

  /**
   * The first h characters met when reading b cyclically from i, taken as the
   * digits of a base-256 number. Rotations compare as their keys compare, see
   * KeyIsLexicographic.
   */
  function Key(b: seq<Byte>, i: nat, h: nat): (k: nat)
    requires i < |b|
    decreases h
  {
    if h == 0 then 0 else b[i] * Pow256(h - 1) + Key(b, Next(|b|, i), h - 1)
  }

  lemma DigitBound(p: nat, d: nat, k: nat)
    requires d < 256 && k < p
    ensures d * p + k < 256 * p
  {
    assert d * p <= 255 * p;
  }

  lemma {:induction false} KeyBound(b: seq<Byte>, i: nat, h: nat)
    requires i < |b|
    ensures Key(b, i, h) < Pow256(h)
    decreases h
  {
    if h != 0 {
      KeyBound(b, Next(|b|, i), h - 1);
      DigitBound(Pow256(h - 1), b[i], Key(b, Next(|b|, i), h - 1));
    }
  }

  lemma Regroup(d: nat, p: nat, q: nat, k: nat, r: nat)
    ensures d * (p * q) + (k * q + r) == (d * p + k) * q + r
  {
    assert d * (p * q) == (d * p) * q;
  }

  lemma {:induction false} KeySplit(b: seq<Byte>, i: nat, g: nat, h: nat)
    requires i < |b| && g <= |b|
    ensures Key(b, i, g + h) == Key(b, i, g) * Pow256(h) + Key(b, Advance(|b|, i, g), h)
    decreases g
  {
    if g != 0 {
      var i' := Next(|b|, i);
      KeySplit(b, i', g - 1, h);
      assert Advance(|b|, i', g - 1) == Advance(|b|, i, g);
      assert g + h - 1 == (g - 1) + h;
      Pow256Add(g - 1, h);
      Regroup(b[i], Pow256(g - 1), Pow256(h), Key(b, i', g - 1), Key(b, Advance(|b|, i, g), h));
    }
  }

  lemma DigitOrder(p: nat, x: nat, y: nat, u: nat, v: nat)
    requires u < p && v < p
    ensures x * p + u < y * p + v <==> x < y || (x == y && u < v)
    ensures x * p + u == y * p + v <==> x == y && u == v
  {
    if x < y {
      assert (x + 1) * p <= y * p;
    } else if y < x {
      assert (y + 1) * p <= x * p;
    }
  }

  /** Keys of length g + h compare by their first g characters, ties by the other h. */
  lemma KeyOrder(b: seq<Byte>, i: nat, j: nat, g: nat, h: nat)
    requires i < |b| && j < |b| && g <= |b|
    ensures
      var x, y := Key(b, i, g), Key(b, j, g);
      var u, v := Key(b, Advance(|b|, i, g), h), Key(b, Advance(|b|, j, g), h);
      && (Key(b, i, g + h) < Key(b, j, g + h) <==> x < y || (x == y && u < v))
      && (Key(b, i, g + h) == Key(b, j, g + h) <==> x == y && u == v)
  {
    KeySplit(b, i, g, h);
    KeySplit(b, j, g, h);
    KeyBound(b, Advance(|b|, i, g), h);
    KeyBound(b, Advance(|b|, j, g), h);
    DigitOrder(Pow256(h), Key(b, i, g), Key(b, j, g),
               Key(b, Advance(|b|, i, g), h), Key(b, Advance(|b|, j, g), h));
  }

  lemma KeyHead(b: seq<Byte>, i: nat, j: nat, h: nat)
    requires i < |b| && j < |b| && h > 0
    ensures
      var i', j' := Next(|b|, i), Next(|b|, j);
      var u, v := Key(b, i', h - 1), Key(b, j', h - 1);
      && (Key(b, i, h) < Key(b, j, h) <==> b[i] < b[j] || (b[i] == b[j] && u < v))
      && (Key(b, i, h) == Key(b, j, h) <==> b[i] == b[j] && u == v)
  {
    KeyOrder(b, i, j, 1, h - 1);
    assert Key(b, i, 1) == b[i] && Key(b, j, 1) == b[j] by {
      assert Pow256(0) == 1;
    }
  }

  /** The first h characters of the rotation starting at i. */
  function Text(b: seq<Byte>, i: nat, h: nat): (r: seq<Byte>)
    requires i < |b|
    ensures |r| == h
    decreases h
  {
    if h == 0 then [] else [b[i]] + Text(b, Next(|b|, i), h - 1)
  }

  predicate LexLess(s: seq<Byte>, t: seq<Byte>) {
    |t| > 0 && (|s| == 0 || s[0] < t[0] || (s[0] == t[0] && LexLess(s[1..], t[1..])))
  }

  /** Keys order the rotations exactly as their texts are ordered as strings. */
  lemma {:induction false} KeyIsLexicographic(b: seq<Byte>, i: nat, j: nat, h: nat)
    requires i < |b| && j < |b|
    ensures Key(b, i, h) < Key(b, j, h) <==> LexLess(Text(b, i, h), Text(b, j, h))
    ensures Key(b, i, h) == Key(b, j, h) <==> Text(b, i, h) == Text(b, j, h)
    decreases h
  {
    if h != 0 {
      var i', j' := Next(|b|, i), Next(|b|, j);
      KeyIsLexicographic(b, i', j', h - 1);
      KeyHead(b, i, j, h);
      var s, t := Text(b, i, h), Text(b, j, h);
      assert s[1..] == Text(b, i', h - 1) && t[1..] == Text(b, j', h - 1);
      assert s == [s[0]] + s[1..] && t == [t[0]] + t[1..];
    }
  }

  /** s lists the rotations of b in non-decreasing order, each of them once. */
  ghost predicate SortedRotations(b: seq<Byte>, s: seq<nat>) {
    && IsPermutation(s, |b|)
    && |s| == |b|
    && (forall i :: 0 <= i < |s| ==> s[i] < |b|)
    && forall i, j :: 0 <= i < j < |s| ==> Key(b, s[i], |b|) <= Key(b, s[j], |b|)
  }
}
