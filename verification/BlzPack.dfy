/** What all packers share: hashes, matches, and writing tokens that spell the input. */
module BlzPack {
  import opened Permutations
  import opened BlzFormat
  import opened BlzTokens
  import opened BlzEncoder

  const HASH_BITS := 17
  const LOOKUP_SIZE: nat := 0x2_0000
  const NO_MATCH: nat := 0xFFFF_FFFF

  /** Fibonacci hashing of the four bytes at p. */
  function Hash4(x: seq<Byte>, p: nat): (h: nat)
    requires p + 4 <= |x|
    ensures h < LOOKUP_SIZE
  {
    var val := (x[p] as nat) + 0x100 * (x[p + 1] as nat) + 0x1_0000 * (x[p + 2] as nat) + 0x100_0000 * (x[p + 3] as nat);
    val * 2654435761 % 0x1_0000_0000 / 0x8000
  }

  // ---- What has been written ----

  /** The tokens spell x from one place to another. */
  ghost predicate Reaches(x: seq<Byte>, from: nat, ts: seq<Token>, to: nat)
    decreases |ts|
  {
    if ts == [] then to == from
    else
      var t := ts[|ts| - 1];
      from + Length(t) <= to && Fits(x, to - Length(t), t) && Reaches(x, from, ts[..|ts| - 1], to - Length(t))
  }

  ghost function EventsTo(x: seq<Byte>, from: nat, ts: seq<Token>, to: nat): seq<Event>
    requires Reaches(x, from, ts, to)
    decreases |ts|
  {
    if ts == [] then []
    else
      var t := ts[|ts| - 1];
      EventsTo(x, from, ts[..|ts| - 1], to - Length(t)) + TokenEvents(x, to - Length(t), t)
  }

  lemma {:induction false} ReachesParses(x: seq<Byte>, from: nat, a: seq<Token>, to: nat, b: seq<Token>)
    requires Reaches(x, from, a, to) && Parses(x, to, b)
    ensures Parses(x, from, a + b)
    ensures Events(x, from, a + b) == EventsTo(x, from, a, to) + Events(x, to, b)
    decreases |a|
  {
    hide TokenEvents, Fits, Parses, Events, EventsTo, Reaches;
    NothingReached(x, from, a, to);
    if a == [] {
      assert a + b == b && [] + Events(x, to, b) == Events(x, to, b);
    } else {
      var t, front := a[|a| - 1], a[..|a| - 1];
      ReachesLast(x, from, a, to);
      ParsesFirst(x, to - Length(t), t, b);
      ReachesParses(x, from, front, to - Length(t), [t] + b);
      assert front + ([t] + b) == a + b;
      var e := EventsTo(x, from, front, to - Length(t));
      assert e + (TokenEvents(x, to - Length(t), t) + Events(x, to, b)) == e + TokenEvents(x, to - Length(t), t) + Events(x, to, b);
    }
  }

  lemma NothingReached(x: seq<Byte>, from: nat, a: seq<Token>, to: nat)
    requires Reaches(x, from, a, to)
    ensures a == [] ==> from == to && EventsTo(x, from, a, to) == []
  {
  }

  lemma ReachesLast(x: seq<Byte>, from: nat, a: seq<Token>, to: nat)
    requires Reaches(x, from, a, to) && a != []
    ensures var t, front := a[|a| - 1], a[..|a| - 1];
            && from + Length(t) <= to && Fits(x, to - Length(t), t) && to - Length(t) < |x|
            && (t.Match? ==> t.len >= 4 && t.pos < to - Length(t))
            && Reaches(x, from, front, to - Length(t))
            && EventsTo(x, from, a, to) == EventsTo(x, from, front, to - Length(t)) + TokenEvents(x, to - Length(t), t)
  {
  }

  lemma ParsesFirst(x: seq<Byte>, cur: nat, t: Token, b: seq<Token>)
    requires Fits(x, cur, t) && Parses(x, cur + Length(t), b)
    ensures Parses(x, cur, [t] + b) && cur < |x| && (t.Match? ==> t.len >= 4 && t.pos < cur)
    ensures Events(x, cur, [t] + b) == TokenEvents(x, cur, t) + Events(x, cur + Length(t), b)
  {
    assert ([t] + b)[1..] == b;
  }

  lemma ReachesAppend(x: seq<Byte>, from: nat, ts: seq<Token>, cur: nat, t: Token)
    requires Reaches(x, from, ts, cur) && Fits(x, cur, t) && from <= cur
    ensures Reaches(x, from, ts + [t], cur + Length(t)) && cur < |x| && (t.Match? ==> t.len >= 4 && t.pos < cur)
    ensures EventsTo(x, from, ts + [t], cur + Length(t)) == EventsTo(x, from, ts, cur) + TokenEvents(x, cur, t)
  {
    assert (ts + [t])[..|ts|] == ts;
  }

  /** Tokens for x from 1 up to cur have been put. */
  ghost predicate Written(p: Packed, x: seq<Byte>, ts: seq<Token>, cur: nat) {
    x != [] && Reaches(x, 1, ts, cur) && p == PutAll(Start(x[0]), EventsTo(x, 1, ts, cur))
  }

  lemma WrittenStart(x: seq<Byte>)
    requires x != []
    ensures Written(Start(x[0]), x, [], 1)
  {
  }

  lemma WrittenToken(p: Packed, x: seq<Byte>, ts: seq<Token>, cur: nat, t: Token)
    requires Written(p, x, ts, cur) && Fits(x, cur, t)
    ensures cur >= 1 && |p.bits| <= TAG_BITS
    ensures Written(PutAll(p, TokenEvents(x, cur, t)), x, ts + [t], cur + Length(t))
  {
    hide TokenEvents, Fits, EventsTo, Reaches, PutAll;
    ReachesFrom(x, 1, ts, cur);
    ReachesAppend(x, 1, ts, cur, t);
    PutAllConcat(Start(x[0]), EventsTo(x, 1, ts, cur), TokenEvents(x, cur, t));
  }

  lemma {:induction false} ReachesFrom(x: seq<Byte>, from: nat, ts: seq<Token>, to: nat)
    requires Reaches(x, from, ts, to)
    ensures from <= to
    decreases |ts|
  {
    if ts != [] {
      ReachesFrom(x, from, ts[..|ts| - 1], to - Length(ts[|ts| - 1]));
    }
  }

  lemma WrittenAll(p: Packed, x: seq<Byte>, ts: seq<Token>)
    requires Written(p, x, ts, |x|) && |x| > 1
    ensures Reaches(x, 1, ts, |x|) && Parses(x, 1, ts) && |p.bits| <= TAG_BITS && Finish(p) == PackedBytes(x, ts)
  {
    hide Finish, PutAll;
    ReachesParses(x, 1, ts, |x|, []);
    assert ts + [] == ts;
    assert EventsTo(x, 1, ts, |x|) + [] == EventsTo(x, 1, ts, |x|);
  }

  method WriteLiteral(bs: BlzState, x: seq<Byte>, cur: nat, ghost ts: seq<Token>) returns (ghost ts': seq<Token>)
    requires bs.Valid() && cur < |x| && Written(bs.packed, x, ts, cur)
    modifies bs
    ensures bs.Valid() && Written(bs.packed, x, ts', cur + 1) && ts' == ts + [Literal]
  {
    hide Written, BlzState.Valid;
    WrittenToken(bs.packed, x, ts, cur, Literal);
    bs.PutLiteral(x, cur);
    ts' := ts + [Literal];
  }

  method WriteMatch(bs: BlzState, x: seq<Byte>, cur: nat, pos: nat, len: nat, ghost ts: seq<Token>) returns (ghost ts': seq<Token>)
    requires bs.Valid() && TrueMatch(x, cur, pos, len) && Written(bs.packed, x, ts, cur)
    modifies bs
    ensures bs.Valid() && Written(bs.packed, x, ts', cur + len) && ts' == ts + [Match(pos, len)]
  {
    hide Written, BlzState.Valid;
    WrittenToken(bs.packed, x, ts, cur, Match(pos, len));
    bs.PutMatch(x, cur, pos, len);
    ts' := ts + [Match(pos, len)];
  }

  function Literals(n: nat): (ts: seq<Token>)
    ensures |ts| == n
  {
    if n == 0 then [] else Literals(n - 1) + [Literal]
  }

  /** Literals for all that is left. */
  method WriteRest(bs: BlzState, x: seq<Byte>, cur0: nat, ghost ts: seq<Token>) returns (ghost ts': seq<Token>)
    requires bs.Valid() && cur0 <= |x| && Written(bs.packed, x, ts, cur0)
    modifies bs
    ensures bs.Valid() && Written(bs.packed, x, ts', |x|) && ts' == ts + Literals(|x| - cur0)
  {
    hide Written, BlzState.Valid;
    var cur := cur0;
    ts' := ts;
    while cur < |x|
      invariant cur0 <= cur <= |x| && bs.Valid() && Written(bs.packed, x, ts', cur) && ts' == ts + Literals(cur - cur0)
    {
      ts' := WriteLiteral(bs, x, cur, ts');
      cur := cur + 1;
    }
  }

  // ---- Matches ----

  /** len characters at pos and at cur agree. */
  ghost predicate Agree(x: seq<Byte>, pos: nat, cur: nat, len: nat) {
    pos <= cur && cur + len <= |x| && x[pos..pos + len] == x[cur..cur + len]
  }

  lemma AgreeMore(x: seq<Byte>, pos: nat, cur: nat, len: nat)
    requires Agree(x, pos, cur, len) && cur + len < |x|
    ensures Agree(x, pos, cur, len + 1) <==> x[pos + len] == x[cur + len]
  {
    assert x[pos..pos + len + 1] == x[pos..pos + len] + [x[pos + len]];
    assert x[cur..cur + len + 1] == x[cur..cur + len] + [x[cur + len]];
  }

  lemma AgreeFewer(x: seq<Byte>, pos: nat, cur: nat, len: nat, n: nat)
    requires Agree(x, pos, cur, len) && n <= len
    ensures Agree(x, pos, cur, n)
  {
    assert x[pos..pos + n] == x[pos..pos + len][..n] && x[cur..cur + n] == x[cur..cur + len][..n];
  }

  /** How many characters at pos and cur agree from len on, up to a limit. */
  function Common(x: seq<Byte>, pos: nat, cur: nat, len: nat, limit: nat): (r: nat)
    requires pos < cur && len <= limit && cur + limit <= |x|
    ensures len <= r <= limit
    ensures r < limit ==> x[pos + r] != x[cur + r]
    decreases limit - len
  {
    if len < limit && x[pos + len] == x[cur + len] then Common(x, pos, cur, len + 1, limit) else len
  }

  lemma {:induction false} CommonAgrees(x: seq<Byte>, pos: nat, cur: nat, len: nat, limit: nat)
    requires pos < cur && len <= limit && cur + limit <= |x| && Agree(x, pos, cur, len)
    ensures Agree(x, pos, cur, Common(x, pos, cur, len, limit))
    decreases limit - len
  {
    if len < limit && x[pos + len] == x[cur + len] {
      AgreeMore(x, pos, cur, len);
      CommonAgrees(x, pos, cur, len + 1, limit);
    }
  }

  lemma {:induction false} CommonIs(x: seq<Byte>, pos: nat, cur: nat, known: nat, limit: nat, len: nat)
    requires pos < cur && cur + limit <= |x| && known <= len <= limit && Agree(x, pos, cur, len)
    requires len < limit ==> x[pos + len] != x[cur + len]
    ensures Common(x, pos, cur, known, limit) == len
    decreases limit - known
  {
    if known < len {
      assert x[pos..pos + len][known] == x[cur..cur + len][known];
      CommonIs(x, pos, cur, known + 1, limit, len);
    }
  }

  lemma {:induction false} CommonAtLeast(x: seq<Byte>, pos: nat, cur: nat, known: nat, limit: nat, k: nat)
    requires pos < cur && cur + limit <= |x| && known <= k <= limit && Agree(x, pos, cur, k)
    ensures Common(x, pos, cur, known, limit) >= k
    decreases limit - known
  {
    if known < k {
      assert x[pos..pos + k][known] == x[cur..cur + k][known];
      CommonAtLeast(x, pos, cur, known + 1, limit, k);
    }
  }

  /** The longest match of cur with pos, up to a limit, some of it being known. */
  method MatchLength(x: seq<Byte>, pos: nat, cur: nat, known: nat, limit: nat) returns (len: nat)
    requires pos < cur && cur + limit <= |x| && known <= limit && Agree(x, pos, cur, known)
    ensures known <= len <= limit && Agree(x, pos, cur, len)
    ensures len < limit ==> x[pos + len] != x[cur + len]
  {
    len := known;
    while len < limit && x[pos + len] == x[cur + len]
      invariant known <= len <= limit && Agree(x, pos, cur, len)
    {
      AgreeMore(x, pos, cur, len);
      len := len + 1;
    }
  }

  method InitLookup(lookup: array<nat>)
    modifies lookup
    ensures forall k :: 0 <= k < lookup.Length ==> lookup[k] == NO_MATCH
  {
    var i := 0;
    while i < lookup.Length
      invariant i <= lookup.Length && forall k :: 0 <= k < i ==> lookup[k] == NO_MATCH
    {
      lookup[i] := NO_MATCH;
      i := i + 1;
    }
  }

  function LastMatchPos(n: nat): nat {
    if n > 4 then n - 4 else 0
  }
}
