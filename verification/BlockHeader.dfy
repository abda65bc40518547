/** A compressed block up to its data, and the end of a stream: layout and reading. */
module BlockHeader {
  import opened Permutations
  import opened HeaderBits
  import opened BitStream
  import opened MtfEncoder
  import opened BlockFormat

  /** What a block says before its data; lens has one table of code lengths per coding group. */
  datatype Header = Header(crc: seq<Byte>, randomised: nat, origPtr: nat, inUse: seq<bool>,
                           selectors: seq<nat>, lens: seq<seq<Byte>>)

  datatype Section = Block(header: Header) | End(combinedCrc: seq<Byte>)

  /** Block sizes are multiples of this. */
  const BLOCK_UNIT := 100000

  const BLOCK_MAGIC: seq<Byte> := [0x31, 0x41, 0x59, 0x26, 0x53, 0x59]
  const END_MAGIC: seq<Byte> := [0x17, 0x72, 0x45, 0x38, 0x50, 0x90]

  function AlphaSize(inUse: seq<bool>): nat
    requires |inUse| == 256
  {
    Used(inUse, 256) + 2
  }

  /** What the writer may put in a header of a stream with blocks of 100000 * size bytes. */
  ghost predicate Writable(h: Header, size: nat) {
    && |h.crc| == 4 && h.randomised <= 1 && h.origPtr <= 10 + 100000 * size && size <= 9
    && |h.inUse| == 256 && Used(h.inUse, 256) > 0
    && 2 <= |h.lens| <= N_GROUPS && (forall t :: 0 <= t < |h.lens| ==> TableOk(h.lens[t], AlphaSize(h.inUse)) && h.lens[t] != [])
    && 1 <= |h.selectors| <= MAX_SELECTORS && forall i :: 0 <= i < |h.selectors| ==> h.selectors[i] < |h.lens|
  }

  /** Reads bytes that must be the expected ones. */
  function ParseExpected(expected: seq<Byte>, bits: Bits): (r: Parsed<seq<Byte>>)
    ensures r.Got? ==> |r.rest| <= |bits|
  {
    if expected == [] then Got([], bits)
    else
      var (v, rest) :- ParseNumber(8, bits);
      if v != expected[0] then Invalid else Prefixed([expected[0]], ParseExpected(expected[1..], rest))
  }

  lemma ByteAhead(c: Byte, t: seq<Byte>, rest: Bits)
    ensures BytesToBits([c] + t) + rest == BitsOf(c, 8) + (BytesToBits(t) + rest)
    ensures ParseNumber(8, BytesToBits([c] + t) + rest) == Got(c, BytesToBits(t) + rest)
  {
    BytesToBitsHead([c] + t, 0);
    assert ([c] + t)[0..] == [c] + t && ([c] + t)[1..] == t;
    assert BitsOf(c, 8) + BytesToBits(t) + rest == BitsOf(c, 8) + (BytesToBits(t) + rest);
    Pow2Bytes();
    NumberRoundTrip(8, c, BytesToBits(t) + rest);
  }

  lemma {:induction false} ExpectedRoundTrip(s: seq<Byte>, rest: Bits)
    ensures ParseExpected(s, BytesToBits(s) + rest) == Got(s, rest)
  {
    if s == [] {
      assert BytesToBits(s) + rest == rest;
    } else {
      assert s == [s[0]] + s[1..];
      ByteAhead(s[0], s[1..], rest);
      ExpectedRoundTrip(s[1..], rest);
    }
  }

  function ParseBytes(n: nat, bits: Bits): (r: Parsed<seq<Byte>>)
    ensures r.Got? ==> |r.value| == n && |r.rest| <= |bits|
  {
    if n == 0 then Got([], bits)
    else
      var (v, rest) :- ParseNumber(8, bits);
      ByteValue(bits);
      Prefixed([v], ParseBytes(n - 1, rest))
  }

  lemma ByteValue(bits: Bits)
    ensures |bits| >= 8 ==> ValueOf(bits[..8]) < 256
  {
    if |bits| >= 8 {
      ValueBound(bits[..8]);
      Pow2Bytes();
    }
  }

  lemma {:induction false} BytesRoundTrip(s: seq<Byte>, rest: Bits)
    ensures ParseBytes(|s|, BytesToBits(s) + rest) == Got(s, rest)
  {
    if s == [] {
      assert BytesToBits(s) + rest == rest;
    } else {
      assert s == [s[0]] + s[1..];
      ByteAhead(s[0], s[1..], rest);
      BytesRoundTrip(s[1..], rest);
    }
  }

  function SelectorSection(selectors: seq<nat>, nGroups: nat): Bits
    requires forall i :: 0 <= i < |selectors| ==> selectors[i] < nGroups
  {
    InIota(selectors, nGroups);
    BitsOf(nGroups, 3) + BitsOf(|selectors|, 15) + SelectorBits(Places(Permutations.Iota(nGroups), selectors))
  }

  lemma InIota(selectors: seq<nat>, nGroups: nat)
    requires forall i :: 0 <= i < |selectors| ==> selectors[i] < nGroups
    ensures forall i :: 0 <= i < |selectors| ==> selectors[i] in Iota(nGroups)
  {
    forall i | 0 <= i < |selectors| ensures selectors[i] in Iota(nGroups) {
      assert Iota(nGroups)[selectors[i]] == selectors[i];
    }
  }

  /** Everything after the block's magic number, up to the coded data. */
  function BodyBits(h: Header): Bits
    requires |h.inUse| == 256 && forall t :: 0 <= t < |h.lens| ==> h.lens[t] != []
    requires forall i :: 0 <= i < |h.selectors| ==> h.selectors[i] < |h.lens|
  {
    BytesToBits(h.crc) + (BitsOf(h.randomised, 1) + (BitsOf(h.origPtr, 24)
    + (MapBits(h.inUse) + (SelectorSection(h.selectors, |h.lens|) + TablesBits(h.lens)))))
  }

  /** Selectors beyond the most a block can need are read and dropped. */
  function Kept(js: seq<nat>): (k: seq<nat>)
    ensures |k| <= |js| && forall i :: 0 <= i < |k| ==> k[i] == js[i]
  {
    if |js| > MAX_SELECTORS then js[..MAX_SELECTORS] else js
  }

  /** The number of coding tables and the selectors. */
  function ParseSelectorSection(bits: Bits): (r: Parsed<(nat, seq<nat>)>)
    ensures r.Got? ==> 2 <= r.value.0 <= N_GROUPS && 1 <= |r.value.1| <= MAX_SELECTORS && |r.rest| <= |bits|
    ensures r.Got? ==> forall i :: 0 <= i < |r.value.1| ==> r.value.1[i] < r.value.0
  {
    var (nGroups, bits1) :- ParseNumber(3, bits);
    if nGroups < 2 || nGroups > N_GROUPS then Invalid
    else
      var (nSelectors, bits2) :- ParseNumber(15, bits1);
      if nSelectors < 1 then Invalid
      else
        var (js, bits3) :- ParseSelectors(nSelectors, nGroups, bits2);
        var selectors := Unplace(Iota(nGroups), Kept(js));
        Got((nGroups, selectors), bits3)
  }

  lemma SelectorSectionRoundTrip(selectors: seq<nat>, nGroups: nat, rest: Bits)
    requires 2 <= nGroups <= N_GROUPS && 1 <= |selectors| <= MAX_SELECTORS
    requires forall i :: 0 <= i < |selectors| ==> selectors[i] < nGroups
    ensures ParseSelectorSection(SelectorSection(selectors, nGroups) + rest) == Got((nGroups, selectors), rest)
  {
    InIota(selectors, nGroups);
    var js := Places(Iota(nGroups), selectors);
    var bits2 := SelectorBits(js) + rest;
    var bits1 := BitsOf(|selectors|, 15) + bits2;
    assert SelectorSection(selectors, nGroups) + rest == BitsOf(nGroups, 3) + bits1;
    assert Pow2(3) == 8;
    assert Pow2(8) == 256;
    assert Pow2(15) == 32768;
    hide BitsOf, Pow2, SelectorBits, Places, ParseSelectors, SelectorSection;
    NumberRoundTrip(3, nGroups, bits1);
    NumberRoundTrip(15, |selectors|, bits2);
    SelectorsRoundTrip(js, nGroups, rest);
    PlacesRoundTrip(Iota(nGroups), selectors);
    assert Kept(js) == js;
  }

  lemma FlagValue(bits: Bits)
    ensures |bits| >= 1 ==> ValueOf(bits[..1]) <= 1
  {
    if |bits| >= 1 {
      ValueBound(bits[..1]);
    }
  }

  function ParseBody(size: nat, bits: Bits): (r: Parsed<Header>)
    ensures r.Got? ==> |r.value.inUse| == 256 && Used(r.value.inUse, 256) > 0 && 2 <= |r.value.lens| <= N_GROUPS
    ensures r.Got? ==> forall t :: 0 <= t < |r.value.lens| ==> TableOk(r.value.lens[t], AlphaSize(r.value.inUse))
    ensures r.Got? ==> forall i :: 0 <= i < |r.value.selectors| ==> r.value.selectors[i] < |r.value.lens|
    ensures r.Got? ==> |r.value.selectors| <= MAX_SELECTORS && |r.rest| <= |bits|
    ensures r.Got? ==> |r.value.crc| == 4 && r.value.randomised <= 1
  {
    var (crc, bits1) :- ParseBytes(4, bits);
    var (randomised, bits2) :- ParseNumber(1, bits1);
    FlagValue(bits1);
    var (origPtr, bits3) :- ParseNumber(24, bits2);
    if origPtr > 10 + 100000 * size then Invalid
    else
      var (inUse, bits4) :- ParseMap(bits3);
      if Used(inUse, 256) == 0 then Invalid
      else
        var (groups, bits5) :- ParseSelectorSection(bits4);
        var (lens, bits6) :- ParseTables(groups.0, AlphaSize(inUse), bits5);
        Got(Header(crc, randomised, origPtr, inUse, groups.1, lens), bits6)
  }

  /** Reading what was written gives the header back. */
  lemma BodyRoundTrip(h: Header, size: nat, rest: Bits)
    requires Writable(h, size)
    ensures ParseBody(size, BodyBits(h) + rest) == Got(h, rest)
  {
    var t5 := TablesBits(h.lens) + rest;
    var t4 := SelectorSection(h.selectors, |h.lens|) + t5;
    var t3 := MapBits(h.inUse) + t4;
    var t2 := BitsOf(h.origPtr, 24) + t3;
    var t1 := BitsOf(h.randomised, 1) + t2;
    BodySplit(h, rest);
    Pow2Bytes();
    assert Pow2(1) == 2;
    hide BitsOf, Pow2, SelectorSection, MapBits, TablesBits, BytesToBits, ParseBytes, ParseMap, ParseSelectorSection,
      ParseTables, BodyBits, Used, ParseNumber;
    BytesRoundTrip(h.crc, t1);
    NumberRoundTrip(1, h.randomised, t2);
    NumberRoundTrip(24, h.origPtr, t3);
    MapRoundTrip(h.inUse, t4);
    SelectorSectionRoundTrip(h.selectors, |h.lens|, t5);
    TablesRoundTrip(h.lens, AlphaSize(h.inUse), rest);
  }

  lemma BodySplit(h: Header, rest: Bits)
    requires |h.inUse| == 256 && forall t :: 0 <= t < |h.lens| ==> h.lens[t] != []
    requires forall i :: 0 <= i < |h.selectors| ==> h.selectors[i] < |h.lens|
    ensures BodyBits(h) + rest
            == BytesToBits(h.crc) + (BitsOf(h.randomised, 1) + (BitsOf(h.origPtr, 24)
               + (MapBits(h.inUse) + (SelectorSection(h.selectors, |h.lens|) + (TablesBits(h.lens) + rest)))))
  {
    hide BitsOf, SelectorSection, MapBits, TablesBits, BytesToBits;
    var a, b, c, d, e, f := BytesToBits(h.crc), BitsOf(h.randomised, 1), BitsOf(h.origPtr, 24), MapBits(h.inUse),
      SelectorSection(h.selectors, |h.lens|), TablesBits(h.lens);
    Regroup(e, f, rest);
    Regroup(d, e + f, rest);
    Regroup(c, d + (e + f), rest);
    Regroup(b, c + (d + (e + f)), rest);
    Regroup(a, b + (c + (d + (e + f))), rest);
  }

  lemma Regroup(a: Bits, b: Bits, c: Bits)
    ensures a + b + c == a + (b + c)
  {
  }

  /** The next section: a block, or the end of the stream. */
  function ParseSection(size: nat, bits: Bits): (r: Parsed<Section>)
    ensures r.Got? ==> |r.rest| < |bits|
  {
    var (first, bits1) :- ParseNumber(8, bits);
    if first == END_MAGIC[0] then
      var (_, bits2) :- ParseExpected(END_MAGIC[1..], bits1);
      var (crc, bits3) :- ParseBytes(4, bits2);
      Got(End(crc), bits3)
    else if first != BLOCK_MAGIC[0] then Invalid
    else
      var (_, bits2) :- ParseExpected(BLOCK_MAGIC[1..], bits1);
      var (h, bits3) :- ParseBody(size, bits2);
      Got(Block(h), bits3)
  }

  function SectionBits(s: Section): Bits
    requires s.Block? ==> |s.header.inUse| == 256 && forall t :: 0 <= t < |s.header.lens| ==> s.header.lens[t] != []
    requires s.Block? ==> forall i :: 0 <= i < |s.header.selectors| ==> s.header.selectors[i] < |s.header.lens|
  {
    match s
    case Block(h) => BytesToBits(BLOCK_MAGIC) + BodyBits(h)
    case End(crc) => BytesToBits(END_MAGIC) + BytesToBits(crc)
  }

  lemma SectionRoundTrip(s: Section, size: nat, rest: Bits)
    requires match s case Block(h) => Writable(h, size) case End(crc) => |crc| == 4
    ensures ParseSection(size, SectionBits(s) + rest) == Got(s, rest)
  {
    var magic := if s.Block? then BLOCK_MAGIC else END_MAGIC;
    var body := if s.Block? then BodyBits(s.header) else BytesToBits(s.combinedCrc);
    hide ParseBody, BodyBits, ParseBytes, BytesToBits, ParseExpected, ParseNumber;
    Regroup(BytesToBits(magic), body, rest);
    assert magic == [magic[0]] + magic[1..];
    ByteAhead(magic[0], magic[1..], body + rest);
    ExpectedRoundTrip(magic[1..], body + rest);
    match s
    case Block(h) =>
      BodyRoundTrip(h, size, rest);
    case End(crc) =>
      BytesRoundTrip(crc, rest);
  }
}
