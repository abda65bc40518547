/** What tokens cost in bits, and how long the packed bytes get. */
module BlzCost {
  import opened Permutations
  import opened BitStream
  import opened BlzFormat
  import opened BlzTokens

  const LITERAL_COST := 9

  function GammaCost(n: nat): nat {
    2 * Log2(n)
  }

  function MatchCost(offs: nat, len: nat): nat
    requires len >= 4
  {
    1 + GammaCost(len - 2) + GammaCost(offs / 256 + 2) + 8
  }

  function TokenCost(cur: nat, t: Token): nat
    requires t.Match? ==> t.len >= 4 && t.pos < cur
  {
    match t
    case Literal => LITERAL_COST
    case Match(pos, len) => MatchCost(cur - pos - 1, len)
  }

  /** A byte counts eight bits. */
  function EventCost(es: seq<Event>): nat {
    if es == [] then 0 else EventCost(es[..|es| - 1]) + if es[|es| - 1].Bit? then 1 else 8
  }

  lemma {:induction false} EventCostConcat(a: seq<Event>, b: seq<Event>)
    ensures EventCost(a + b) == EventCost(a) + EventCost(b)
    decreases |b|
  {
    if b == [] {
      assert a + b == a;
    } else {
      assert (a + b)[..|a + b| - 1] == a + b[..|b| - 1];
      EventCostConcat(a, b[..|b| - 1]);
    }
  }

  lemma {:induction false} BitEventsCost(bits: Bits)
    ensures EventCost(BitEvents(bits)) == |bits|
  {
    if bits != [] {
      assert BitEvents(bits)[..|bits| - 1] == BitEvents(bits[..|bits| - 1]);
      BitEventsCost(bits[..|bits| - 1]);
    }
  }

  lemma SingleCost(e: Event)
    ensures EventCost([e]) == if e.Bit? then 1 else 8
  {
    assert [e][..0] == [];
  }

  /** The cost of a token is the number of bits it is written in. */
  lemma TokenEventsCost(x: seq<Byte>, cur: nat, t: Token)
    requires cur < |x| && (t.Match? ==> t.len >= 4 && t.pos < cur)
    ensures EventCost(TokenEvents(x, cur, t)) == TokenCost(cur, t)
  {
    hide EventCost;
    match t
    case Literal =>
      assert TokenEvents(x, cur, t) == [Bit(false)] + [Raw(x[cur])];
      EventCostConcat([Bit(false)], [Raw(x[cur])]);
      SingleCost(Bit(false));
      SingleCost(Raw(x[cur]));
    case Match(pos, len) =>
      var offs := cur - pos - 1;
      var l, o, c := BitEvents(Gamma(len - 2)), BitEvents(Gamma(offs / 256 + 2)), [Raw(offs % 256)];
      EventCostConcat([Bit(true)], l + (o + c));
      EventCostConcat(l, o + c);
      EventCostConcat(o, c);
      SingleCost(Bit(true));
      SingleCost(Raw(offs % 256));
      BitEventsCost(Gamma(len - 2));
      BitEventsCost(Gamma(offs / 256 + 2));
  }

  /** The cost of tokens from cur on. */
  ghost function ParseCost(x: seq<Byte>, cur: nat, ts: seq<Token>): nat
    requires Parses(x, cur, ts)
    decreases |ts|
  {
    if ts == [] then 0 else TokenCost(cur, ts[0]) + ParseCost(x, cur + Length(ts[0]), ts[1..])
  }

  lemma {:induction false} EventsCost(x: seq<Byte>, cur: nat, ts: seq<Token>)
    requires Parses(x, cur, ts)
    ensures EventCost(Events(x, cur, ts)) == ParseCost(x, cur, ts)
    decreases |ts|
  {
    if ts != [] {
      hide TokenEvents, EventCost;
      TokenEventsCost(x, cur, ts[0]);
      EventsCost(x, cur + Length(ts[0]), ts[1..]);
      EventCostConcat(TokenEvents(x, cur, ts[0]), Events(x, cur + Length(ts[0]), ts[1..]));
    }
  }

  // ---- Size ----

  /** Eight times the bytes put, the open tag counted by its bits only: all closed tags are full. */
  function Weight(p: Packed): nat {
    8 * (|p.closed| + |p.body|) + |p.bits|
  }

  lemma {:induction false} PutWeight(p: Packed, es: seq<Event>)
    requires |p.bits| <= TAG_BITS
    ensures Weight(PutAll(p, es)) == Weight(p) + EventCost(es)
  {
    if es != [] {
      PutWeight(p, es[..|es| - 1]);
    }
  }

  /** A parse of cost at most nine bits a byte packs within the published bound. */
  lemma PackedFits(x: seq<Byte>, ts: seq<Token>)
    requires |x| > 1 && Parses(x, 1, ts) && ParseCost(x, 1, ts) <= LITERAL_COST * (|x| - 1)
    ensures |PackedBytes(x, ts)| <= |x| + |x| / 8 + 64
  {
    var es := Events(x, 1, ts);
    EventsCost(x, 1, ts);
    PutWeight(Start(x[0]), es);
    hide EventCost, PutAll;
    var p := PutAll(Start(x[0]), es);
    var q := Put(p, Bit(true));
    assert Weight(q) == Weight(p) + 1;
    assert |Finish(p)| == |q.closed| + 2 + |q.body|;
  }
}
