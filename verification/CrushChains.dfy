/** crush's two hash tables and the ring of links between positions with the same hash. */
module CrushChains {
  import opened Permutations
  import opened CrushFormat

  const HASH1_SIZE: nat := 0x20_0000
  const HASH2_SIZE: nat := 0x100_0000

  function UpdateHash1(h: nat, c: nat): (r: nat)
    ensures r < HASH1_SIZE
  {
    (h * 0x80 + c) % HASH1_SIZE
  }

  function UpdateHash2(h: nat, c: nat): (r: nat)
    ensures r < HASH2_SIZE
  {
    (h * 0x40 + c) % HASH2_SIZE
  }

  /** The hash of the three characters at p, or the four. */
  function HashAt(x: seq<Byte>, four: bool, p: nat): (h: nat)
    requires p + 4 <= |x|
    ensures h < if four then HASH2_SIZE else HASH1_SIZE
  {
    if four then (x[p] * 0x4_0000 + x[p + 1] * 0x1000 + x[p + 2] * 0x40 + x[p + 3]) % HASH2_SIZE
    else (x[p] * 0x4000 + x[p + 1] * 0x80 + x[p + 2]) % HASH1_SIZE
  }

  /** Rolled on by a character, the hash is that of the next position: nothing of the first is left. */
  lemma Rolls(x: seq<Byte>, p: nat)
    requires p + 5 <= |x|
    ensures UpdateHash1(HashAt(x, false, p), x[p + 3]) == HashAt(x, false, p + 1)
    ensures UpdateHash2(HashAt(x, true, p), x[p + 4]) == HashAt(x, true, p + 1)
  {
    var a: nat, b: nat, c: nat, d: nat, e: nat := x[p], x[p + 1], x[p + 2], x[p + 3], x[p + 4];
    Rolled3(a, b * 0x80 + c, d);
    Rolled4(a, b * 0x1000 + c * 0x40 + d, e);
  }

  lemma Rolled3(first: nat, rest: nat, c: nat)
    ensures ((first * 0x4000 + rest) % HASH1_SIZE * 0x80 + c) % HASH1_SIZE == (rest * 0x80 + c) % HASH1_SIZE
  {
    var q := (first * 0x4000 + rest) / HASH1_SIZE;
    var k := first - q * 0x80;
    assert (first * 0x4000 + rest) % HASH1_SIZE * 0x80 + c == rest * 0x80 + c + k * HASH1_SIZE;
  }

  lemma Rolled4(first: nat, rest: nat, c: nat)
    ensures ((first * 0x4_0000 + rest) % HASH2_SIZE * 0x40 + c) % HASH2_SIZE == (rest * 0x40 + c) % HASH2_SIZE
  {
    var q := (first * 0x4_0000 + rest) / HASH2_SIZE;
    var k := first - q * 0x40;
    assert (first * 0x4_0000 + rest) % HASH2_SIZE * 0x40 + c == rest * 0x40 + c + k * HASH2_SIZE;
  }

  /** The last position before p with this hash, or -1. */
  function Latest(x: seq<Byte>, four: bool, h: nat, p: nat): (s: int)
    requires p + 3 <= |x|
    ensures -1 <= s < p
  {
    if p == 0 then -1 else if HashAt(x, four, p - 1) == h then p - 1 else Latest(x, four, h, p - 1)
  }

  /** A position's place in the ring. */
  function Masked(s: nat): (k: nat)
    ensures k < W_SIZE
  {
    s % W_SIZE
  }

  lemma MaskedApart(s: nat, p: nat)
    requires s < p < s + W_SIZE
    ensures Masked(s) != Masked(p)
  {
  }

  /** Each entry is the last position with its hash. */
  ghost predicate Heads(head: seq<int>, x: seq<Byte>, p: nat)
    requires p + 3 <= |x|
  {
    && |head| == HASH1_SIZE + HASH2_SIZE
    && (forall k :: 0 <= k < HASH1_SIZE ==> head[k] == Latest(x, false, k, p))
    && (forall k :: HASH1_SIZE <= k < HASH1_SIZE + HASH2_SIZE ==> head[k] == Latest(x, true, k - HASH1_SIZE, p))
  }

  /** The ring has, for each position of the window, the one before it with the same hash. */
  ghost predicate Links(prev: seq<int>, x: seq<Byte>, p: nat)
    requires p + 3 <= |x|
  {
    |prev| == W_SIZE && forall s: nat :: p - W_SIZE <= s < p ==> prev[Masked(s)] == Latest(x, true, HashAt(x, true, s), s)
  }

  lemma HeadsGrow(head: seq<int>, x: seq<Byte>, p: nat)
    requires p + 4 <= |x| && Heads(head, x, p)
    ensures Heads(head[HashAt(x, false, p) := p][HASH1_SIZE + HashAt(x, true, p) := p], x, p + 1)
  {
    hide HashAt;
  }

  lemma LinksGrow(prev: seq<int>, x: seq<Byte>, p: nat)
    requires p + 4 <= |x| && Links(prev, x, p)
    ensures Links(prev[Masked(p) := Latest(x, true, HashAt(x, true, p), p)], x, p + 1)
  {
    hide HashAt, Latest, Masked;
    forall s: nat | p + 1 - W_SIZE <= s < p ensures Masked(s) != Masked(p) {
      MaskedApart(s, p);
    }
  }

  /** Both tables are right up to p. */
  ghost predicate Chained(head: seq<int>, prev: seq<int>, x: seq<Byte>, p: nat) {
    p + 3 <= |x| && Heads(head, x, p) && Links(prev, x, p)
  }

  /** The head of a chain, and the link of a position in the window. */
  lemma HeadIs(head: seq<int>, prev: seq<int>, x: seq<Byte>, p: nat, h: nat)
    requires Chained(head, prev, x, p)
    ensures |head| == HASH1_SIZE + HASH2_SIZE
    ensures h < HASH1_SIZE ==> head[h] == Latest(x, false, h, p)
    ensures h < HASH2_SIZE ==> head[h + HASH1_SIZE] == Latest(x, true, h, p)
  {
    hide Latest;
    if h < HASH2_SIZE {
      var k := h + HASH1_SIZE;
      assert head[k] == Latest(x, true, k - HASH1_SIZE, p);
    }
  }

  lemma LinkIs(head: seq<int>, prev: seq<int>, x: seq<Byte>, p: nat, s: nat)
    requires Chained(head, prev, x, p) && p - W_SIZE <= s < p
    ensures |prev| == W_SIZE && prev[Masked(s)] == Latest(x, true, HashAt(x, true, s), s)
  {
  }

  method InitHeads(head: array<int>, prev: array<int>, x: seq<Byte>)
    requires head.Length == HASH1_SIZE + HASH2_SIZE && prev.Length == W_SIZE && 3 <= |x| && head != prev
    modifies head
    ensures Chained(head[..], prev[..], x, 0)
  {
    for i := 0 to head.Length
      invariant forall k :: 0 <= k < i ==> head[k] == -1
    {
      head[i] := -1;
    }
  }

  /** The hashes of the first position, character by character. */
  method FirstHashes(x: seq<Byte>) returns (h1: nat, h2: nat)
    requires 4 <= |x|
    ensures h1 == HashAt(x, false, 0) && h2 == HashAt(x, true, 0)
  {
    h1, h2 := 0, 0;
    for i := 0 to 3
      invariant h1 == if i == 0 then 0 else if i == 1 then x[0] else if i == 2 then x[0] * 0x80 + x[1] else HashAt(x, false, 0)
    {
      h1 := UpdateHash1(h1, x[i]);
    }
    for i := 0 to 4
      invariant h2 == if i == 0 then 0 else if i == 1 then x[0] else if i == 2 then x[0] * 0x40 + x[1]
                      else if i == 3 then x[0] * 0x1000 + x[1] * 0x40 + x[2] else HashAt(x, true, 0)
    {
      h2 := UpdateHash2(h2, x[i]);
    }
  }

  /** Enters the position p and goes on to the next. */
  method InsertOne(x: seq<Byte>, head: array<int>, prev: array<int>, h1: nat, h2: nat, p: nat) returns (h1': nat, h2': nat)
    requires p + 5 <= |x| && head != prev && Chained(head[..], prev[..], x, p)
    requires h1 == HashAt(x, false, p) && h2 == HashAt(x, true, p)
    modifies head, prev
    ensures Chained(head[..], prev[..], x, p + 1) && h1' == HashAt(x, false, p + 1) && h2' == HashAt(x, true, p + 1)
  {
    hide Heads, Links, HashAt, Latest, Masked, UpdateHash1, UpdateHash2;
    ghost var heads, links := head[..], prev[..];
    HeadIs(heads, links, x, p, h2);
    HeadsGrow(heads, x, p);
    LinksGrow(links, x, p);
    Sizes(heads, links, x, p);
    Rolls(x, p);
    var last := head[h2 + HASH1_SIZE];
    assert last == heads[h2 + HASH1_SIZE];
    head[h1] := p;
    prev[Masked(p)] := last;
    head[h2 + HASH1_SIZE] := p;
    assert head[..] == heads[h1 := p][HASH1_SIZE + h2 := p];
    assert prev[..] == links[Masked(p) := last];
    h1' := UpdateHash1(h1, x[p + 3]);
    h2' := UpdateHash2(h2, x[p + 4]);
  }

  lemma Sizes(head: seq<int>, prev: seq<int>, x: seq<Byte>, p: nat)
    requires Chained(head, prev, x, p)
    ensures |head| == HASH1_SIZE + HASH2_SIZE && |prev| == W_SIZE
  {
  }
}
