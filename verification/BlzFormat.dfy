/**
 * The packed format: bits gathered in 16-bit tags that stand in front of the bytes coming after
 * their first bit. Writing and reading as functions, and their agreement.
 */
module BlzFormat {
  import opened Permutations
  import opened BitStream
  import opened HeaderBits

  const TAG_BITS := 16

  /** What goes into the stream: a bit, or a byte by itself. */
  datatype Event = Bit(b: bool) | Raw(c: Byte)

  /** Output so far: finished bytes, the bits of the open tag, and the bytes after its place. */
  datatype Packed = Packed(closed: seq<Byte>, bits: Bits, body: seq<Byte>)

  /** A tag's two bytes, low byte first; its first bit is the highest. */
  function TagBytes(t: Bits): (b: seq<Byte>)
    requires |t| == TAG_BITS
    ensures |b| == 2
  {
    TagBound(t);
    [ValueOf(t) % 256, ValueOf(t) / 256]
  }

  lemma TagBound(t: Bits)
    requires |t| == TAG_BITS
    ensures ValueOf(t) < 0x1_0000
  {
    ValueBound(t);
    assert Pow2(8) == 256;
    assert Pow2(16) == 65536;
  }

  function Put(p: Packed, e: Event): (q: Packed)
    requires |p.bits| <= TAG_BITS
    ensures |q.bits| <= TAG_BITS
  {
    match e
    case Raw(c) => p.(body := p.body + [c])
    case Bit(b) =>
      if |p.bits| == TAG_BITS then Packed(p.closed + TagBytes(p.bits) + p.body, [b], [])
      else p.(bits := p.bits + [b])
  }

  /** Putting events one after the other. */
  function PutAll(p: Packed, es: seq<Event>): (q: Packed)
    requires |p.bits| <= TAG_BITS
    ensures |q.bits| <= TAG_BITS
  {
    if es == [] then p else Put(PutAll(p, es[..|es| - 1]), es[|es| - 1])
  }

  lemma {:induction false} PutAllConcat(p: Packed, a: seq<Event>, b: seq<Event>)
    requires |p.bits| <= TAG_BITS
    ensures PutAll(p, a + b) == PutAll(PutAll(p, a), b)
    decreases |b|
  {
    if b == [] {
      assert a + b == a;
    } else {
      assert (a + b)[..|a + b| - 1] == a + b[..|b| - 1];
      PutAllConcat(p, a, b[..|b| - 1]);
    }
  }

  /** The tag filled up and all bytes in their places. */
  function Complete(p: Packed, fill: Bits): seq<Byte>
    requires |p.bits| + |fill| == TAG_BITS
  {
    p.closed + TagBytes(p.bits + fill) + p.body
  }

  function Zeros(n: nat): (z: Bits)
    ensures |z| == n && forall i :: 0 <= i < n ==> !z[i]
  {
    seq(n, i => false)
  }

  /** The end of the stream: a one bit, and zeros to fill the tag. */
  function Finish(p: Packed): seq<Byte>
    requires |p.bits| <= TAG_BITS
  {
    var q := Put(p, Bit(true));
    Complete(q, Zeros(TAG_BITS - |q.bits|))
  }

  // ---- Reading ----

  /** A place in the bytes, with the bits of the tag loaded last. */
  datatype Place = At(pos: nat, bits: Bits) | Off

  /** The place after reading one event; Off if something else is there. */
  function Follow(s: seq<Byte>, at: Place, e: Event): Place {
    match at
    case Off => Off
    case At(p, t) =>
      match e
      case Raw(c) => if p < |s| && s[p] == c then At(p + 1, t) else Off
      case Bit(b) =>
        if t != [] then if t[0] == b then At(p, t[1..]) else Off
        else if p + 2 <= |s| then
          var u := TagOf(s, p);
          if u[0] == b then At(p + 2, u[1..]) else Off
        else Off
  }

  /** The tag standing at p. */
  function TagOf(s: seq<Byte>, p: nat): (t: Bits)
    requires p + 2 <= |s|
    ensures |t| == TAG_BITS
  {
    BitsOf((s[p] as nat) + 256 * (s[p + 1] as nat), TAG_BITS)
  }

  function FollowAll(s: seq<Byte>, at: Place, es: seq<Event>): Place {
    if es == [] then at else Follow(s, FollowAll(s, at, es[..|es| - 1]), es[|es| - 1])
  }

  lemma {:induction false} FollowAllConcat(s: seq<Byte>, at: Place, a: seq<Event>, b: seq<Event>)
    ensures FollowAll(s, at, a + b) == FollowAll(s, FollowAll(s, at, a), b)
    decreases |b|
  {
    if b == [] {
      assert a + b == a;
    } else {
      assert (a + b)[..|a + b| - 1] == a + b[..|b| - 1];
      FollowAllConcat(s, at, a, b[..|b| - 1]);
    }
  }

  lemma TagReads(t: Bits, before: seq<Byte>, after: seq<Byte>)
    requires |t| == TAG_BITS
    ensures var s := before + TagBytes(t) + after; TagOf(s, |before|) == t
  {
    var s := before + TagBytes(t) + after;
    TagBound(t);
    assert s[|before|] == ValueOf(t) % 256 && s[|before| + 1] == ValueOf(t) / 256;
    BitsOfValue(t);
  }

  /** The output when only the first byte stands, and the first tag is open. */
  function Start(first: Byte): Packed {
    Packed([first], [], [])
  }

  /** One bit more: into the open tag, or into a new one. */
  lemma PutBitReads(p: Packed, b: bool, fill: Bits, rest: seq<Byte>)
    requires 0 < |p.bits| <= TAG_BITS && |Put(p, Bit(b)).bits| + |fill| == TAG_BITS
    ensures var fill', rest' := if |p.bits| == TAG_BITS then [] else [b] + fill,
                                if |p.bits| == TAG_BITS then TagBytes([b] + fill) + rest else rest;
            var s := Complete(Put(p, Bit(b)), fill) + rest;
            && |p.bits| + |fill'| == TAG_BITS && s == Complete(p, fill') + rest'
            && Follow(s, At(|p.closed| + 2 + |p.body|, fill'), Bit(b))
               == At(|Put(p, Bit(b)).closed| + 2 + |Put(p, Bit(b)).body|, fill)
  {
    if |p.bits| == TAG_BITS {
      assert p.bits + [] == p.bits;
      var before := p.closed + TagBytes(p.bits) + p.body;
      TagReads([b] + fill, before, rest);
      assert before + TagBytes([b] + fill) + [] + rest == before + (TagBytes([b] + fill) + rest);
    } else {
      assert p.bits + [b] + fill == p.bits + ([b] + fill);
    }
  }

  /**
   * Events put are read back in order, from the place of the first tag to the end of what is
   * written, whatever fills the open tag and whatever follows.
   */
  lemma {:induction false} PutReads(first: Byte, es: seq<Event>, fill: Bits, rest: seq<Byte>)
    requires es != [] && es[0].Bit? && |PutAll(Start(first), es).bits| + |fill| == TAG_BITS
    ensures var p := PutAll(Start(first), es);
            && |p.bits| > 0
            && FollowAll(Complete(p, fill) + rest, At(1, []), es) == At(|p.closed| + 2 + |p.body|, fill)
    decreases |es|
  {
    hide Complete, FollowAll, PutAll, Follow, TagBytes;
    var e, front := es[|es| - 1], es[..|es| - 1];
    var p := PutAll(Start(first), front);
    if |es| == 1 {
      assert es == [e];
      FirstReads(first, e.b, fill, rest);
    } else {
      FrontBits(first, front);
      LastReads(first, es, fill, rest);
      match e
      case Raw(c) =>
        RawReads(p, c, fill, rest);
        PutReads(first, front, fill, [c] + rest);
      case Bit(b) =>
        PutBitReads(p, b, fill, rest);
        if |p.bits| == TAG_BITS {
          PutReads(first, front, [], TagBytes([b] + fill) + rest);
        } else {
          PutReads(first, front, [b] + fill, rest);
        }
    }
  }

  lemma LastReads(first: Byte, es: seq<Event>, fill: Bits, rest: seq<Byte>)
    requires es != []
    ensures PutAll(Start(first), es) == Put(PutAll(Start(first), es[..|es| - 1]), es[|es| - 1])
    ensures forall s, at :: FollowAll(s, at, es) == Follow(s, FollowAll(s, at, es[..|es| - 1]), es[|es| - 1])
  {
  }

  lemma RawReads(p: Packed, c: Byte, fill: Bits, rest: seq<Byte>)
    requires |p.bits| + |fill| == TAG_BITS
    ensures var q := Put(p, Raw(c));
            && Complete(q, fill) + rest == Complete(p, fill) + ([c] + rest)
            && Follow(Complete(q, fill) + rest, At(|p.closed| + 2 + |p.body|, fill), Raw(c))
               == At(|q.closed| + 2 + |q.body|, fill)
  {
    assert p.closed + TagBytes(p.bits + fill) + (p.body + [c]) + rest
        == p.closed + TagBytes(p.bits + fill) + p.body + ([c] + rest);
  }

  lemma FirstReads(first: Byte, b: bool, fill: Bits, rest: seq<Byte>)
    requires |PutAll(Start(first), [Bit(b)]).bits| + |fill| == TAG_BITS
    ensures PutAll(Start(first), [Bit(b)]) == Packed([first], [b], [])
    ensures FollowAll(Complete(Packed([first], [b], []), fill) + rest, At(1, []), [Bit(b)]) == At(3, fill)
  {
    assert [Bit(b)][..0] == [];
    assert PutAll(Start(first), []) == Start(first);
    assert PutAll(Start(first), [Bit(b)]) == Packed([first], [b], []);
    var s := Complete(Packed([first], [b], []), fill) + rest;
    TagReads([b] + fill, [first], rest);
    assert s == [first] + TagBytes([b] + fill) + rest;
    assert FollowAll(s, At(1, []), []) == At(1, []);
    assert ([b] + fill)[1..] == fill;
  }

  lemma {:induction false} FrontBits(first: Byte, es: seq<Event>)
    requires es != [] && es[0].Bit?
    ensures |PutAll(Start(first), es).bits| > 0
  {
    if |es| > 1 {
      FrontBits(first, es[..|es| - 1]);
    } else {
      assert PutAll(Start(first), es[..0]) == Start(first);
    }
  }
}
