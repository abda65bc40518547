/** Reading a section of the stream from input that comes in pieces. */
module SectionReader {
  import opened Permutations
  import opened HeaderBits
  import opened BitStream
  import opened CanonicalCodes
  import opened MoveToFront
  import opened BlockFormat
  import opened BlockHeader
  import opened Streams
  import opened BitFeed
  import opened SectionSteps

  // ---- The selectors from their places ----

  /** Undoes the move-to-front coding of the selectors. */
  method UnplaceAll(js: seq<nat>, nGroups: nat) returns (selectors: seq<nat>)
    requires 0 < nGroups <= N_GROUPS && forall i :: 0 <= i < |js| ==> js[i] < nGroups
    ensures selectors == Unplace(Iota(nGroups), js)
  {
    var pos := new nat[N_GROUPS](_ => 0);
    var v := 0;
    while v < nGroups
      invariant v <= nGroups && forall k :: 0 <= k < v ==> pos[k] == k
    {
      pos[v] := v;
      v := v + 1;
    }
    assert pos[..nGroups] == Iota(nGroups);
    selectors := UnplaceFrom(pos, js, nGroups);
  }

  lemma UnplaceHead(pos: seq<nat>, js: seq<nat>)
    requires (forall k :: 0 <= k < |js| ==> js[k] < |pos|) && js != []
    ensures Unplace(pos, js) == [pos[js[0]]] + Unplace(Front(pos, js[0]), js[1..])
  {
    hide Front;
  }

  lemma UnplaceOf(pos: seq<nat>, js: seq<nat>, i: nat, selectors: seq<nat>)
    requires (forall k :: 0 <= k < |js| ==> js[k] < |pos|) && i < |js|
    ensures selectors + Unplace(pos, js[i..]) == selectors + [pos[js[i]]] + Unplace(Front(pos, js[i]), js[i + 1..])
  {
    hide Unplace, Front;
    assert js[i..][1..] == js[i + 1..];
    UnplaceHead(pos, js[i..]);
    var rest := Unplace(Front(pos, js[i]), js[i + 1..]);
    assert selectors + ([pos[js[i]]] + rest) == selectors + [pos[js[i]]] + rest;
  }

  method UnplaceFrom(pos: array<nat>, js: seq<nat>, ghost n: nat) returns (selectors: seq<nat>)
    requires n <= pos.Length && forall i :: 0 <= i < |js| ==> js[i] < n
    modifies pos
    ensures selectors == Unplace(old(pos[..n]), js)
  {
    hide Front, Unplace;
    ghost var want := Unplace(pos[..n], js);
    selectors := [];
    var i := 0;
    assert js[0..] == js && [] + want == want;
    while i < |js|
      invariant i <= |js| && selectors + Unplace(pos[..n], js[i..]) == want
    {
      UnplaceOf(pos[..n], js, i, selectors);
      var tmp := TakeFront(pos, js[i], n);
      selectors := selectors + [tmp];
      i := i + 1;
    }
    NothingPlaced(pos[..n], js[i..]);
    assert selectors + [] == selectors;
  }

  lemma NothingPlaced(pos: seq<nat>, js: seq<nat>)
    requires js == []
    ensures Unplace(pos, js) == []
  {
  }

  method TakeFront(pos: array<nat>, v0: nat, ghost n: nat) returns (tmp: nat)
    requires v0 < n <= pos.Length
    modifies pos
    ensures tmp == old(pos[v0]) && pos[..n] == Front(old(pos[..n]), v0)
  {
    ghost var p := pos[..n];
    var v := v0;
    tmp := pos[v];
    while v > 0
      invariant v <= v0
      invariant forall k :: 0 <= k <= v || v0 < k < n ==> pos[k] == p[k]
      invariant forall k :: v < k <= v0 ==> pos[k] == p[k - 1]
    {
      pos[v] := pos[v - 1];
      v := v - 1;
    }
    pos[0] := tmp;
    assert pos[..n] == Front(p, v0);
  }

  // ---- Reading ----

  /** The step from one number to the next. */
  method Advance(size: nat, l: Saved, v: nat) returns (s: Step)
    requires Fits(l) && v < Pow2(Width(l.state))
    ensures s == Stepped(size, l, v)
  {
    if l.state == Selector3 && v != 1 && l.i + 1 == l.nSelectors {
      var mtf := if l.i < MAX_SELECTORS then l.selectorMtf + [l.j] else l.selectorMtf;
      var selectors := UnplaceAll(mtf, l.nGroups);
      s := Go(l.(state := Coding1, selectorMtf := mtf, selectors := selectors, len := []));
    } else {
      s := Stepped(size, l, v);
    }
  }

  /** The part of the decoder that reads sections: its save area between calls. */
  class SectionState {
    const size: nat
    var save: Saved

    /** What is saved and what is to come make up what is wanted. */
    ghost predicate Stands(feed: Feed, want: Parsed<Section>)
      reads this, feed
    {
      feed.Valid() && Fits(save) && After(size, save, feed.Pending()) == want
    }

    constructor (blockSize: nat, ghost feed: Feed)
      requires feed.Valid()
      ensures size == blockSize && Stands(feed, ParseSection(size, feed.Pending()))
    {
      size, save := blockSize, START;
    }

    /**
     * Goes on reading with what input there is. However the input is cut, the section found, or the error,
     * is that of the bits as a whole; if the input runs out first, nothing is lost.
     */
    method Resume(feed: Feed, strm: Strm, ghost want: Parsed<Section>) returns (status: Status, section: Section)
      requires Stands(feed, want) && strm.input <= feed.ahead
      modifies this, feed, strm`input
      ensures feed.Valid() && TakenOf(old(strm.input), old(feed.ahead), strm.input, feed.ahead)
      ensures status == Found ==> want == Got(section, feed.Pending())
      ensures status == Bad ==> want == Invalid
      ensures |feed.Pending()| <= |old(feed.Pending())| && (status == Found ==> |feed.Pending()| < |old(feed.Pending())|)
      ensures status == NoInput ==> Stands(feed, want) && strm.input == [] && (feed.ahead == [] ==> want == Short)
    {
      hide Fits, After, Stepped, Agreed, Feed.Pending, ParseSection, TakenOf;
      var l := save;
      section := End([]);
      TakenNone(strm.input, feed.ahead);
      while true
        invariant |feed.Pending()| <= |old(feed.Pending())|
        invariant feed.Valid() && Fits(l) && After(size, l, feed.Pending()) == want
        invariant TakenOf(old(strm.input), old(feed.ahead), strm.input, feed.ahead) && strm.input <= feed.ahead
        decreases |feed.Pending()|
      {
        ghost var bits, in0, a0 := feed.Pending(), strm.input, feed.ahead;
        var ok, v := feed.GetBits(strm, Width(l.state));
        TakenTwice(old(strm.input), old(feed.ahead), in0, a0, strm.input, feed.ahead);
        TakenAhead(in0, a0, strm.input, feed.ahead);
        if !ok {
          if feed.ahead == [] {
            TooFew(size, l, bits);
          }
          save := l;
          return NoInput, section;
        }
        StepAgrees(size, l, bits);
        var s := Advance(size, l, v);
        match s
        case Go(next) =>
          Went(size, s, feed.Pending(), want);
          l := next;
        case Fail =>
          Went(size, s, feed.Pending(), want);
          return Bad, section;
        case Have(read) =>
          Went(size, s, feed.Pending(), want);
          return Found, read;
      }
    }
  }

  lemma Went(size: nat, s: Step, rest: Bits, want: Parsed<Section>)
    requires Agreed(size, s, rest, want)
    ensures s.Go? ==> Fits(s.l) && After(size, s.l, rest) == want
    ensures s.Fail? ==> want == Invalid
    ensures s.Have? ==> want == Got(s.section, rest)
  {
  }
}
