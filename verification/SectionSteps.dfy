/**
 * Where the reading of a section of the stream, a block's header or the end of the stream, can stop for want
 * of input: what is saved there, what the bits to come then make of it, and how one number leads on.
 */
module SectionSteps {
  import opened Permutations
  import opened HeaderBits
  import opened BitStream
  import opened MtfEncoder
  import opened BlockFormat
  import opened BlockHeader

  /** Which number is to be read next. */
  datatype Label =
    | BlkHdr | EndHdr | StreamCrc | BlockCrc | RandBit | OrigPtr
    | Mapping1 | Mapping2 | Selector1 | Selector2 | Selector3 | Coding1 | Coding2 | Coding3

  /** The save area: where the reading stands, the counters, and the fields read so far. */
  datatype Saved = Saved(state: Label, i: nat, j: nat, curr: int, nGroups: nat, nSelectors: nat,
                         crc: seq<Byte>, randomised: nat, origPtr: nat, inUse16: seq<bool>, inUse: seq<bool>,
                         selectorMtf: seq<nat>, selectors: seq<nat>, len: seq<seq<Byte>>, row: seq<Byte>)

  const START: Saved := Saved(BlkHdr, 0, 0, 0, 0, 0, [], 0, 0, [], [], [], [], [], [])

  /** How many bits the number has. */
  function Width(state: Label): (n: nat)
    ensures 1 <= n <= 15
  {
    match state
    case RandBit => 1
    case Mapping1 => 1
    case Mapping2 => 1
    case Selector1 => 3
    case Selector2 => 15
    case Selector3 => 1
    case Coding1 => 5
    case Coding2 => 1
    case Coding3 => 1
    case _ => 8
  }

  ghost predicate GroupsOk(l: Saved) {
    2 <= l.nGroups <= N_GROUPS
  }

  ghost predicate UseOk(l: Saved) {
    |l.inUse| == 256 && Used(l.inUse, 256) > 0
  }

  ghost predicate TablesSoFar(l: Saved) {
    && GroupsOk(l) && UseOk(l) && 1 <= |l.selectors| <= MAX_SELECTORS && (forall k :: 0 <= k < |l.selectors| ==> l.selectors[k] < l.nGroups)
    && |l.len| < l.nGroups && forall t :: 0 <= t < |l.len| ==> TableOk(l.len[t], AlphaSize(l.inUse))
  }

  ghost predicate RowSoFar(l: Saved) {
    && TablesSoFar(l) && |l.row| < AlphaSize(l.inUse) && (forall k :: 0 <= k < |l.row| ==> 1 <= l.row[k] <= 20)
    && 1 <= l.curr <= 20
  }

  /** What is known about the save area wherever the reading may have stopped. */
  ghost predicate Fits(l: Saved) {
    match l.state
    case BlkHdr => l.i < 6
    case EndHdr => 1 <= l.i < 6
    case StreamCrc => |l.crc| < 4
    case BlockCrc => |l.crc| < 4
    case RandBit => |l.crc| == 4
    case OrigPtr => |l.crc| == 4 && l.i < 3
    case Mapping1 => |l.inUse16| < 16
    case Mapping2 => |l.inUse16| == 16 && l.i < 16 && l.inUse16[l.i] && l.j < 16 && |l.inUse| == 16 * l.i + l.j
    case Selector1 => UseOk(l)
    case Selector2 => UseOk(l) && GroupsOk(l)
    case Selector3 => UseOk(l) && GroupsOk(l) && l.i < l.nSelectors && l.j < l.nGroups
                      && |l.selectorMtf| == (if l.i < MAX_SELECTORS then l.i else MAX_SELECTORS)
                      && forall k :: 0 <= k < |l.selectorMtf| ==> l.selectorMtf[k] < l.nGroups
    case Coding1 => TablesSoFar(l)
    case Coding2 => RowSoFar(l)
    case Coding3 => RowSoFar(l)
  }

  // ---- What the bits from any label on come to ----

  ghost function FromTables(l: Saved, bits: Bits): Parsed<Section>
    requires |l.len| <= l.nGroups && |l.inUse| == 256
  {
    var (more, rest) :- ParseTables(l.nGroups - |l.len|, AlphaSize(l.inUse), bits);
    Got(Block(Header(l.crc, l.randomised, l.origPtr, l.inUse, l.selectors, l.len + more)), rest)
  }

  ghost function FromRow(l: Saved, bits: Bits): Parsed<Section>
    requires |l.len| < l.nGroups && |l.inUse| == 256 && |l.row| <= AlphaSize(l.inUse)
  {
    var (more, rest) :- ParseLengths(AlphaSize(l.inUse) - |l.row|, l.curr, bits);
    FromTables(l.(state := Coding1, len := l.len + [l.row + more]), rest)
  }

  /** The places kept of those had and those to come. */
  function KeptWith(had: seq<nat>, more: seq<nat>): seq<nat> {
    if |had| + |more| > MAX_SELECTORS && |had| <= MAX_SELECTORS then (had + more)[..MAX_SELECTORS] else had + more
  }

  ghost function FromPlaces(l: Saved, more: seq<nat>, bits: Bits): Parsed<Section>
    requires |l.inUse| == 256 && forall k :: 0 <= k < |l.selectorMtf| ==> l.selectorMtf[k] < l.nGroups
    requires forall k :: 0 <= k < |more| ==> more[k] < l.nGroups
  {
    FromTables(l.(state := Coding1, selectors := Unplace(Iota(l.nGroups), KeptWith(l.selectorMtf, more)), len := []), bits)
  }

  /** Having i places, and j ones of the next. */
  ghost function FromUnary(l: Saved, bits: Bits): Parsed<Section>
    requires |l.inUse| == 256 && forall k :: 0 <= k < |l.selectorMtf| ==> l.selectorMtf[k] < l.nGroups
    requires l.i < l.nSelectors && l.j < l.nGroups
  {
    var (j, rest) :- ParseUnary(l.nGroups, l.j, bits);
    var (more, rest') :- ParseSelectors(l.nSelectors - l.i - 1, l.nGroups, rest);
    FromPlaces(l, [j] + more, rest')
  }

  ghost function FromGroups(l: Saved, bits: Bits): Parsed<Section>
    requires |l.inUse| == 256
  {
    var (groups, rest) :- ParseSelectorSection(bits);
    FromTables(l.(state := Coding1, nGroups := groups.0, selectors := groups.1, len := []), rest)
  }

  ghost function FromNumber(l: Saved, bits: Bits): Parsed<Section>
    requires |l.inUse| == 256 && GroupsOk(l)
  {
    var (nSelectors, bits2) :- ParseNumber(15, bits);
    if nSelectors < 1 then Invalid
    else
      var (js, bits3) :- ParseSelectors(nSelectors, l.nGroups, bits2);
      FromPlaces(l.(state := Selector3, nSelectors := nSelectors, i := 0, j := 0, selectorMtf := []), js, bits3)
  }

  ghost function FromUse(l: Saved, bits: Bits): Parsed<Section>
    requires |l.inUse| == 256
  {
    if Used(l.inUse, 256) == 0 then Invalid else FromGroups(l.(state := Selector1, i := 0, j := 0), bits)
  }

  /** Having i rows of flags. */
  ghost function FromRows(l: Saved, i: nat, bits: Bits): Parsed<Section>
    requires |l.inUse16| == 16 && i <= 16 && |l.inUse| == 16 * i
  {
    var (more, rest) :- ParseRows(l.inUse16, i, bits);
    FromUse(l.(inUse := l.inUse + more), rest)
  }

  ghost function FromFlags(l: Saved, bits: Bits): Parsed<Section>
    requires |l.inUse16| == 16 && l.i < 16 && l.j <= 16 && |l.inUse| == 16 * l.i + l.j
  {
    if |bits| < 16 - l.j then Short
    else FromRows(l.(inUse := l.inUse + bits[..16 - l.j]), l.i + 1, bits[16 - l.j..])
  }

  ghost function FromSummary(l: Saved, bits: Bits): Parsed<Section>
    requires |l.inUse16| <= 16
  {
    var n := 16 - |l.inUse16|;
    if |bits| < n then Short else FromRows(l.(inUse16 := l.inUse16 + bits[..n], inUse := []), 0, bits[n..])
  }

  ghost function FromPointer(size: nat, l: Saved, bits: Bits): Parsed<Section> {
    if l.origPtr > 10 + 100000 * size then Invalid else FromSummary(l.(state := Mapping1, i := 0, inUse16 := []), bits)
  }

  /** Having i bytes of the pointer. */
  ghost function FromBytes(size: nat, l: Saved, bits: Bits): Parsed<Section>
    requires l.i <= 3
  {
    var n := 24 - 8 * l.i;
    if |bits| < n then Short else FromPointer(size, l.(origPtr := Shl(l.origPtr, n) + ValueOf(bits[..n])), bits[n..])
  }

  ghost function FromRandBit(size: nat, l: Saved, bits: Bits): Parsed<Section> {
    var (randomised, rest) :- ParseNumber(1, bits);
    FromBytes(size, l.(state := OrigPtr, randomised := randomised, i := 0, origPtr := 0), rest)
  }

  ghost function FromCrc(size: nat, l: Saved, bits: Bits): Parsed<Section>
    requires |l.crc| <= 4
  {
    var (more, rest) :- ParseBytes(4 - |l.crc|, bits);
    FromRandBit(size, l.(state := RandBit, crc := l.crc + more), rest)
  }

  ghost function FromStreamCrc(l: Saved, bits: Bits): Parsed<Section>
    requires |l.crc| <= 4
  {
    var (more, rest) :- ParseBytes(4 - |l.crc|, bits);
    Got(End(l.crc + more), rest)
  }

  /** What the section comes to, from what has been saved and the bits to come. */
  ghost function After(size: nat, l: Saved, bits: Bits): Parsed<Section>
    requires Fits(l)
  {
    match l.state
    case BlkHdr =>
      if l.i == 0 then ParseSection(size, bits)
      else
        var (_, rest) :- ParseExpected(BLOCK_MAGIC[l.i..], bits);
        FromCrc(size, l.(state := BlockCrc, i := 0, crc := []), rest)
    case EndHdr =>
      var (_, rest) :- ParseExpected(END_MAGIC[l.i..], bits);
      FromStreamCrc(l.(state := StreamCrc, crc := []), rest)
    case StreamCrc => FromStreamCrc(l, bits)
    case BlockCrc => FromCrc(size, l, bits)
    case RandBit => FromRandBit(size, l, bits)
    case OrigPtr => FromBytes(size, l, bits)
    case Mapping1 => FromSummary(l, bits)
    case Mapping2 => FromFlags(l, bits)
    case Selector1 => FromGroups(l, bits)
    case Selector2 => FromNumber(l, bits)
    case Selector3 => FromUnary(l, bits)
    case Coding1 => FromTables(l, bits)
    case Coding2 => FromRow(l, bits)
    case Coding3 => if bits == [] then Short else FromRow(l.(state := Coding2, curr := if bits[0] then l.curr - 1 else l.curr + 1), bits[1..])
  }

  // ---- From one number to the next ----

  /** What a number read leads to: the next one, an error, or the whole section. */
  datatype Step = Go(l: Saved) | Fail | Have(section: Section)

  function Mapped(l: Saved): Step
    requires |l.inUse| == 256
  {
    if Used(l.inUse, 256) == 0 then Fail else Go(l.(state := Selector1, i := 0, j := 0))
  }

  /** Rows not in use are passed over without reading. */
  function NextRow(l: Saved, i: nat): Step
    requires |l.inUse16| == 16 && i <= 16 && |l.inUse| == 16 * i
    decreases 16 - i
  {
    if i == 16 then Mapped(l)
    else if !l.inUse16[i] then NextRow(l.(inUse := l.inUse + NoneUsed(16)), i + 1)
    else Go(l.(state := Mapping2, i := i, j := 0))
  }

  function Placed(l: Saved): Step
    requires GroupsOk(l) && forall k :: 0 <= k < |l.selectorMtf| ==> l.selectorMtf[k] < l.nGroups
  {
    Go(l.(state := Coding1, selectors := Unplace(Iota(l.nGroups), l.selectorMtf), len := []))
  }

  function RowDone(l: Saved): Step
    requires RowSoFar(l)
  {
    var row := l.row + [l.curr];
    if |row| < AlphaSize(l.inUse) then Go(l.(state := Coding2, row := row))
    else
      var len := l.len + [row];
      if |len| < l.nGroups then Go(l.(state := Coding1, len := len))
      else Have(Block(Header(l.crc, l.randomised, l.origPtr, l.inUse, l.selectors, len)))
  }

  function Stepped(size: nat, l: Saved, v: nat): Step
    requires Fits(l) && v < Pow2(Width(l.state))
  {
    Widths();
    match l.state
    case BlkHdr =>
      if l.i == 0 && v == END_MAGIC[0] then Go(l.(state := EndHdr, i := 1))
      else if v != BLOCK_MAGIC[l.i] then Fail
      else if l.i < 5 then Go(l.(i := l.i + 1)) else Go(l.(state := BlockCrc, i := 0, crc := []))
    case EndHdr =>
      if v != END_MAGIC[l.i] then Fail
      else if l.i < 5 then Go(l.(i := l.i + 1)) else Go(l.(state := StreamCrc, crc := []))
    case StreamCrc =>
      var crc: seq<Byte> := l.crc + [v];
      if |crc| < 4 then Go(l.(crc := crc)) else Have(End(crc))
    case BlockCrc =>
      var crc: seq<Byte> := l.crc + [v];
      if |crc| < 4 then Go(l.(crc := crc)) else Go(l.(state := RandBit, crc := crc))
    case RandBit => Go(l.(state := OrigPtr, randomised := v, i := 0, origPtr := 0))
    case OrigPtr =>
      var p := 256 * l.origPtr + v;
      if l.i < 2 then Go(l.(i := l.i + 1, origPtr := p))
      else if p > 10 + 100000 * size then Fail
      else Go(l.(state := Mapping1, i := 0, origPtr := p, inUse16 := []))
    case Mapping1 =>
      var u := l.inUse16 + [v == 1];
      if |u| < 16 then Go(l.(inUse16 := u)) else NextRow(l.(inUse16 := u, inUse := []), 0)
    case Mapping2 =>
      var u := l.inUse + [v == 1];
      if l.j < 15 then Go(l.(inUse := u, j := l.j + 1)) else NextRow(l.(inUse := u), l.i + 1)
    case Selector1 => if v < 2 || v > N_GROUPS then Fail else Go(l.(state := Selector2, nGroups := v))
    case Selector2 =>
      if v < 1 then Fail else Go(l.(state := Selector3, nSelectors := v, i := 0, j := 0, selectorMtf := []))
    case Selector3 =>
      if v == 1 then if l.j + 1 >= l.nGroups then Fail else Go(l.(j := l.j + 1))
      else
        var mtf := if l.i < MAX_SELECTORS then l.selectorMtf + [l.j] else l.selectorMtf;
        if l.i + 1 < l.nSelectors then Go(l.(i := l.i + 1, j := 0, selectorMtf := mtf)) else Placed(l.(selectorMtf := mtf))
    case Coding1 => if v < 1 || v > 20 then Fail else Go(l.(state := Coding2, curr := v, row := []))
    case Coding2 => if v == 1 then Go(l.(state := Coding3)) else RowDone(l)
    case Coding3 =>
      var curr := if v == 0 then l.curr + 1 else l.curr - 1;
      if curr < 1 || curr > 20 then Fail else Go(l.(state := Coding2, curr := curr))
  }

  lemma Widths()
    ensures Pow2(1) == 2 && Pow2(3) == 8 && Pow2(5) == 32 && Pow2(8) == 256
  {
    Pow2Bytes();
    assert Pow2(3) == 8;
  }

  /** What follows a step comes to what was wanted. */
  ghost predicate Agreed(size: nat, s: Step, rest: Bits, want: Parsed<Section>) {
    match s
    case Go(l) => Fits(l) && After(size, l, rest) == want
    case Fail => want == Invalid
    case Have(section) => want == Got(section, rest)
  }

  lemma OneBit(bits: Bits)
    requires bits != []
    ensures ValueOf(bits[..1]) == if bits[0] then 1 else 0
  {
    assert bits[..1] == [bits[0]] && [bits[0]][..0] == [] && ValueOf([]) == 0;
  }

  lemma ExpectNext(magic: seq<Byte>, i: nat, bits: Bits)
    requires i < |magic| && 8 <= |bits|
    ensures ParseNumber(8, bits) == Got(ValueOf(bits[..8]), bits[8..])
    ensures ParseExpected(magic[i..], bits)
            == if ValueOf(bits[..8]) != magic[i] then Invalid else Prefixed([magic[i]], ParseExpected(magic[i + 1..], bits[8..]))
    ensures i + 1 == |magic| ==> ParseExpected(magic[i + 1..], bits[8..]) == Got([], bits[8..])
  {
    assert magic[i..][1..] == magic[i + 1..];
  }

  ghost function AsBlock(h: Parsed<Header>): Parsed<Section> {
    match h
    case Got(v, rest) => Got(Block(v), rest)
    case Short => Short
    case Invalid => Invalid
  }

  /** Stage by stage, a block's header is what the stages from its checksum on make of the bits. */
  lemma BodyFrom(size: nat, l: Saved, bits: Bits)
    requires l.crc == []
    ensures FromCrc(size, l, bits) == AsBlock(ParseBody(size, bits))
  {
    hide ParseBytes, ParseNumber, ParseMap, ParseSelectorSection, ParseTables, FromBytes, FromUse, Used;
    var crc := ParseBytes(4, bits);
    if crc.Got? {
      assert [] + crc.value == crc.value;
      var l1 := l.(state := RandBit, crc := crc.value);
      assert FromCrc(size, l, bits) == FromRandBit(size, l1, crc.rest);
      var rand := ParseNumber(1, crc.rest);
      if rand.Got? {
        var l2 := l1.(state := OrigPtr, randomised := rand.value, i := 0, origPtr := 0);
        assert FromRandBit(size, l1, crc.rest) == FromBytes(size, l2, rand.rest);
        var pointer := ParseNumber(24, rand.rest);
        NumberThere(24, rand.rest);
        PointerFrom(size, l2, rand.rest);
        if pointer.Got? && pointer.value <= 10 + 100000 * size {
          BodyAt(size, bits, crc, rand, pointer);
          var used := ParseMap(pointer.rest);
          if used.Got? {
            UseFrom(l2.(origPtr := pointer.value, inUse := used.value), used.rest);
          }
        }
      }
    }
  }

  lemma NumberThere(n: nat, bits: Bits)
    ensures !ParseNumber(n, bits).Invalid?
  {
  }

  /** A header whose first three fields have been read. */
  lemma BodyAt(size: nat, bits: Bits, crc: Parsed<seq<Byte>>, rand: Parsed<nat>, pointer: Parsed<nat>)
    requires crc == ParseBytes(4, bits) && crc.Got? && rand == ParseNumber(1, crc.rest) && rand.Got?
    requires pointer == ParseNumber(24, rand.rest) && pointer.Got? && pointer.value <= 10 + 100000 * size
    ensures var used := ParseMap(pointer.rest);
            && (used.Short? ==> ParseBody(size, bits) == Short) && (used.Invalid? ==> ParseBody(size, bits) == Invalid)
            && (used.Got? && Used(used.value, 256) == 0 ==> ParseBody(size, bits) == Invalid)
            && (used.Got? && Used(used.value, 256) > 0 ==>
                  var g := ParseSelectorSection(used.rest);
                  && (!g.Got? ==> ParseBody(size, bits) == if g.Short? then Short else Invalid)
                  && (g.Got? ==>
                        var t := ParseTables(g.value.0, AlphaSize(used.value), g.rest);
                        ParseBody(size, bits)
                        == if t.Got? then Got(Header(crc.value, rand.value, pointer.value, used.value, g.value.1, t.value), t.rest)
                           else if t.Short? then Short else Invalid))
  {
    hide ParseBytes, ParseNumber, ParseMap, ParseSelectorSection, ParseTables, Used;
  }

  lemma UseFrom(l: Saved, bits: Bits)
    requires |l.inUse| == 256
    ensures Used(l.inUse, 256) == 0 ==> FromUse(l, bits) == Invalid
    ensures var g := ParseSelectorSection(bits);
            Used(l.inUse, 256) > 0 && !g.Got? ==> FromUse(l, bits) == (if g.Short? then Short else Invalid)
    ensures var g := ParseSelectorSection(bits);
            Used(l.inUse, 256) > 0 && g.Got? ==>
              var t := ParseTables(g.value.0, AlphaSize(l.inUse), g.rest);
              FromUse(l, bits)
              == if t.Got? then Got(Block(Header(l.crc, l.randomised, l.origPtr, l.inUse, g.value.1, t.value)), t.rest)
                 else if t.Short? then Short else Invalid
  {
    hide ParseSelectorSection, ParseTables, Used;
    var g := ParseSelectorSection(bits);
    if Used(l.inUse, 256) > 0 && g.Got? {
      var t := ParseTables(g.value.0, AlphaSize(l.inUse), g.rest);
      if t.Got? {
        assert [] + t.value == t.value;
      }
    }
  }

  lemma PointerFrom(size: nat, l: Saved, bits: Bits)
    requires l.i == 0 && l.origPtr == 0
    ensures var p := ParseNumber(24, bits);
            && (p.Short? ==> FromBytes(size, l, bits) == Short)
            && (p.Got? && p.value > 10 + 100000 * size ==> FromBytes(size, l, bits) == Invalid)
            && (p.Got? && p.value <= 10 + 100000 * size ==>
                  FromBytes(size, l, bits) == MapFrom(l.(origPtr := p.value), ParseMap(p.rest)))
  {
    hide ParseSelectorSection, ParseTables, ParseRows;
    var p := ParseNumber(24, bits);
    if p.Got? {
      ShlZero(24);
      var m := l.(origPtr := p.value, inUse16 := []);
      if |p.rest| >= 16 {
        assert m.inUse16 + p.rest[..16] == p.rest[..16];
        var rows := ParseRows(p.rest[..16], 0, p.rest[16..]);
        if rows.Got? {
          assert [] + rows.value == rows.value;
        }
      }
    }
  }

  ghost function MapFrom(l: Saved, used: Parsed<seq<bool>>): Parsed<Section>
    requires used.Got? ==> |used.value| == 256
  {
    match used
    case Got(inUse, rest) => FromUse(l.(inUse := inUse), rest)
    case Short => Short
    case Invalid => Invalid
  }

  lemma StepBlkHdr(size: nat, l: Saved, bits: Bits)
    requires Fits(l) && l.state == BlkHdr && 8 <= |bits| && ValueOf(bits[..8]) < Pow2(8)
    ensures Agreed(size, Stepped(size, l, ValueOf(bits[..8])), bits[8..], After(size, l, bits))
  {
    hide ParseNumber, ParseBytes, ParseExpected, ParseBody, FromRandBit;
    ExpectNext(BLOCK_MAGIC, l.i, bits);
    if l.i == 0 {
      MagicFrom(size, l, bits);
    }
  }

  /** The first byte says whether a block or the end of the stream is to come. */
  lemma MagicFrom(size: nat, l: Saved, bits: Bits)
    requires Fits(l) && l.state == BlkHdr && l.i == 0 && 8 <= |bits| && ValueOf(bits[..8]) < Pow2(8)
    ensures Agreed(size, Stepped(size, l, ValueOf(bits[..8])), bits[8..], ParseSection(size, bits))
  {
    hide ParseNumber, ParseBytes, ParseExpected, ParseBody, FromRandBit, FromCrc;
    ExpectNext(BLOCK_MAGIC, 0, bits);
    var block, end := ParseExpected(BLOCK_MAGIC[1..], bits[8..]), ParseExpected(END_MAGIC[1..], bits[8..]);
    if block.Got? {
      BodyFrom(size, l.(state := BlockCrc, i := 0, crc := []), block.rest);
    }
    if end.Got? && ParseBytes(4, end.rest).Got? {
      assert [] + ParseBytes(4, end.rest).value == ParseBytes(4, end.rest).value;
    }
  }

  lemma StepEndHdr(size: nat, l: Saved, bits: Bits)
    requires Fits(l) && l.state == EndHdr && 8 <= |bits| && ValueOf(bits[..8]) < Pow2(8)
    ensures Agreed(size, Stepped(size, l, ValueOf(bits[..8])), bits[8..], After(size, l, bits))
  {
    hide ParseNumber, ParseBytes, ParseExpected;
    ExpectNext(END_MAGIC, l.i, bits);
  }

  lemma NextByte(n: nat, bits: Bits)
    requires 0 < n && 8 <= |bits| && ValueOf(bits[..8]) < Pow2(8)
    ensures ValueOf(bits[..8]) < 256
    ensures ParseBytes(n, bits) == Prefixed([ValueOf(bits[..8])], ParseBytes(n - 1, bits[8..]))
    ensures n == 1 ==> ParseBytes(n - 1, bits[8..]) == Got([], bits[8..])
  {
    Widths();
  }

  lemma StepCrc(size: nat, l: Saved, bits: Bits)
    requires Fits(l) && (l.state == StreamCrc || l.state == BlockCrc) && 8 <= |bits| && ValueOf(bits[..8]) < Pow2(8)
    ensures Agreed(size, Stepped(size, l, ValueOf(bits[..8])), bits[8..], After(size, l, bits))
  {
    hide ParseBytes, FromRandBit;
    NextByte(4 - |l.crc|, bits);
    var v: Byte := ValueOf(bits[..8]);
    var more := ParseBytes(3 - |l.crc|, bits[8..]);
    if more.Got? {
      assert l.crc + ([v] + more.value) == l.crc + [v] + more.value;
      assert l.crc + [v] + [] == l.crc + [v];
    }
  }

  lemma StepRandBit(size: nat, l: Saved, bits: Bits)
    requires Fits(l) && l.state == RandBit && 1 <= |bits| && ValueOf(bits[..1]) < Pow2(1)
    ensures Agreed(size, Stepped(size, l, ValueOf(bits[..1])), bits[1..], After(size, l, bits))
  {
    hide FromBytes;
  }

  lemma StepOrigPtr(size: nat, l: Saved, bits: Bits)
    requires Fits(l) && l.state == OrigPtr && 8 <= |bits| && ValueOf(bits[..8]) < Pow2(8)
    ensures Agreed(size, Stepped(size, l, ValueOf(bits[..8])), bits[8..], After(size, l, bits))
  {
    hide FromSummary, ValueOf, Shl;
    var n, v, rest := 24 - 8 * l.i, ValueOf(bits[..8]), bits[8..];
    NoShift(256 * l.origPtr + v);
    if |bits| >= n {
      assert n == 8 ==> rest == bits[n..];
      assert bits[..n] == bits[..8] + rest[..n - 8] && rest[n - 8..] == bits[n..];
      ValueOfConcat(bits[..8], rest[..n - 8]);
      ShlByte(l.origPtr);
      ShlSum(Shl(l.origPtr, 8), v, n - 8);
      ShlShl(l.origPtr, 8, n - 8);
      NoValue(rest[..0]);
    }
  }

  lemma NoShift(x: nat)
    ensures Shl(x, 0) == x
  {
  }

  lemma NoValue(bits: Bits)
    requires bits == []
    ensures ValueOf(bits) == 0
  {
  }

  /** Passing over rows not in use agrees with the parse of the rows. */
  lemma {:induction false} NextRowAgrees(size: nat, l: Saved, i: nat, bits: Bits)
    requires |l.inUse16| == 16 && i <= 16 && |l.inUse| == 16 * i
    ensures Agreed(size, NextRow(l, i), bits, FromRows(l, i, bits))
    decreases 16 - i
  {
    hide FromGroups, Used, FromRows, After;
    if i == 16 {
      RowsOver(size, l, bits);
    } else if !l.inUse16[i] {
      NextRowAgrees(size, l.(inUse := l.inUse + NoneUsed(16)), i + 1, bits);
      RowPassed(l, i, bits);
    } else {
      RowBegins(size, l, i, bits);
    }
  }

  lemma RowsOver(size: nat, l: Saved, bits: Bits)
    requires |l.inUse16| == 16 && |l.inUse| == 16 * 16
    ensures Agreed(size, NextRow(l, 16), bits, FromRows(l, 16, bits))
  {
    hide FromGroups, Used;
    assert l.inUse + [] == l.inUse;
  }

  lemma RowPassed(l: Saved, i: nat, bits: Bits)
    requires |l.inUse16| == 16 && i < 16 && |l.inUse| == 16 * i && !l.inUse16[i]
    ensures FromRows(l, i, bits) == FromRows(l.(inUse := l.inUse + NoneUsed(16)), i + 1, bits)
  {
    hide FromGroups, Used;
    var more := ParseRows(l.inUse16, i + 1, bits);
    if more.Got? {
      assert l.inUse + (NoneUsed(16) + more.value) == l.inUse + NoneUsed(16) + more.value;
    }
  }

  lemma RowBegins(size: nat, l: Saved, i: nat, bits: Bits)
    requires |l.inUse16| == 16 && i < 16 && |l.inUse| == 16 * i && l.inUse16[i]
    ensures Agreed(size, NextRow(l, i), bits, FromRows(l, i, bits))
  {
    hide FromGroups, Used;
    if |bits| >= 16 {
      var more := ParseRows(l.inUse16, i + 1, bits[16..]);
      if more.Got? {
        assert l.inUse + (bits[..16] + more.value) == l.inUse + bits[..16] + more.value;
      }
    }
  }

  lemma StepMapping1(size: nat, l: Saved, bits: Bits)
    requires Fits(l) && l.state == Mapping1 && 1 <= |bits| && ValueOf(bits[..1]) < Pow2(1)
    ensures Agreed(size, Stepped(size, l, ValueOf(bits[..1])), bits[1..], After(size, l, bits))
  {
    hide FromRows, NextRow;
    OneBit(bits);
    var n, u, rest := 16 - |l.inUse16|, l.inUse16 + [bits[0]], bits[1..];
    if |bits| >= n {
      assert l.inUse16 + bits[..n] == u + rest[..n - 1] && rest[n - 1..] == bits[n..];
      assert n == 1 ==> u + rest[..0] == u && bits[1..] == rest;
    }
    if n == 1 {
      NextRowAgrees(size, l.(inUse16 := u, inUse := []), 0, rest);
    }
  }

  lemma StepMapping2(size: nat, l: Saved, bits: Bits)
    requires Fits(l) && l.state == Mapping2 && 1 <= |bits| && ValueOf(bits[..1]) < Pow2(1)
    ensures Agreed(size, Stepped(size, l, ValueOf(bits[..1])), bits[1..], After(size, l, bits))
  {
    hide FromGroups, NextRow, ParseRows, Used;
    OneBit(bits);
    var n, u, rest := 16 - l.j, l.inUse + [bits[0]], bits[1..];
    if |bits| >= n {
      assert l.inUse + bits[..n] == u + rest[..n - 1] && rest[n - 1..] == bits[n..];
      assert n == 1 ==> u + rest[..0] == u && bits[1..] == rest;
    }
    if n == 1 {
      NextRowAgrees(size, l.(inUse := u), l.i + 1, rest);
    }
  }

  lemma StepSelector1(size: nat, l: Saved, bits: Bits)
    requires Fits(l) && l.state == Selector1 && 3 <= |bits| && ValueOf(bits[..3]) < Pow2(3)
    ensures Agreed(size, Stepped(size, l, ValueOf(bits[..3])), bits[3..], After(size, l, bits))
  {
    hide ParseSelectors, ParseTables, Unplace, Used;
    var n := ValueOf(bits[..3]);
    var selectors := ParseNumber(15, bits[3..]);
    NumberThere(15, bits[3..]);
    if 2 <= n <= N_GROUPS && selectors.Got? && selectors.value >= 1 {
      var js := ParseSelectors(selectors.value, n, selectors.rest);
      if js.Got? {
        assert [] + js.value == js.value;
        assert KeptWith([], js.value) == Kept(js.value);
      }
    }
  }

  lemma StepSelector2(size: nat, l: Saved, bits: Bits)
    requires Fits(l) && l.state == Selector2 && 15 <= |bits| && ValueOf(bits[..15]) < Pow2(15)
    ensures Agreed(size, Stepped(size, l, ValueOf(bits[..15])), bits[15..], After(size, l, bits))
  {
    hide ParseUnary, FromPlaces, Used;
  }

  lemma KeptNext(had: seq<nat>, j: nat, more: seq<nat>)
    requires |had| <= MAX_SELECTORS
    ensures KeptWith(had, [j] + more) == KeptWith(if |had| < MAX_SELECTORS then had + [j] else had, more)
    ensures KeptWith(had, []) == had
  {
    assert had + ([j] + more) == had + [j] + more;
  }

  lemma StepSelector3(size: nat, l: Saved, bits: Bits)
    requires Fits(l) && l.state == Selector3 && 1 <= |bits| && ValueOf(bits[..1]) < Pow2(1)
    ensures Agreed(size, Stepped(size, l, ValueOf(bits[..1])), bits[1..], After(size, l, bits))
  {
    hide ParseTables, Unplace, Used, KeptWith;
    OneBit(bits);
    if !bits[0] {
      var mtf := if l.i < MAX_SELECTORS then l.selectorMtf + [l.j] else l.selectorMtf;
      KeptNext(l.selectorMtf, l.j, []);
      KeptNext(mtf, 0, []);
      assert [l.j] + [] == [l.j];
      if l.i + 1 < l.nSelectors {
        var next := ParseUnary(l.nGroups, 0, bits[1..]);
        if next.Got? {
          var more := ParseSelectors(l.nSelectors - l.i - 2, l.nGroups, next.rest);
          if more.Got? {
            KeptNext(l.selectorMtf, l.j, [next.value] + more.value);
          }
        }
      }
    }
  }

  lemma StepCoding1(size: nat, l: Saved, bits: Bits)
    requires Fits(l) && l.state == Coding1 && 5 <= |bits| && ValueOf(bits[..5]) < Pow2(5)
    ensures Agreed(size, Stepped(size, l, ValueOf(bits[..5])), bits[5..], After(size, l, bits))
  {
    hide Used;
    var curr := ValueOf(bits[..5]);
    var row := ParseLengths(AlphaSize(l.inUse), curr, bits[5..]);
    if row.Got? {
      assert [] + row.value == row.value;
      var more := ParseTables(l.nGroups - |l.len| - 1, AlphaSize(l.inUse), row.rest);
      if more.Got? {
        assert l.len + ([row.value] + more.value) == l.len + [row.value] + more.value;
      }
    }
  }

  lemma StepCoding2(size: nat, l: Saved, bits: Bits)
    requires Fits(l) && l.state == Coding2 && 1 <= |bits| && ValueOf(bits[..1]) < Pow2(1)
    ensures Agreed(size, Stepped(size, l, ValueOf(bits[..1])), bits[1..], After(size, l, bits))
  {
    hide Used, ParseTables, RowDone;
    OneBit(bits);
    if !bits[0] {
      RowEnds(size, l, bits);
    } else if |bits| >= 2 {
      assert bits[1..][0] == bits[1] && bits[1..][1..] == bits[2..];
    }
  }

  lemma RowEnds(size: nat, l: Saved, bits: Bits)
    requires RowSoFar(l) && l.state == Coding2 && bits != [] && !bits[0]
    ensures Agreed(size, RowDone(l), bits[1..], FromRow(l, bits))
  {
    hide Used, ParseLengths;
    var n, row := AlphaSize(l.inUse) - |l.row|, l.row + [l.curr];
    LengthReached(n, l.curr, bits);
    var more := ParseLengths(n - 1, l.curr, bits[1..]);
    if more.Got? {
      assert l.row + ([l.curr] + more.value) == row + more.value;
      assert row + [] == row;
      assert l.len + [row] + [] == l.len + [row];
    }
  }

  lemma LengthReached(n: nat, curr: int, bits: Bits)
    requires n > 0 && 1 <= curr <= 20 && bits != [] && !bits[0]
    ensures ParseLengths(n, curr, bits) == Prefixed([curr], ParseLengths(n - 1, curr, bits[1..]))
    ensures n == 1 ==> ParseLengths(n - 1, curr, bits[1..]) == Got([], bits[1..])
  {
  }

  lemma StepCoding3(size: nat, l: Saved, bits: Bits)
    requires Fits(l) && l.state == Coding3 && 1 <= |bits| && ValueOf(bits[..1]) < Pow2(1)
    ensures Agreed(size, Stepped(size, l, ValueOf(bits[..1])), bits[1..], After(size, l, bits))
  {
    hide Used, ParseTables;
    OneBit(bits);
  }

  lemma NumberBound(bits: Bits, n: nat)
    requires n <= |bits|
    ensures ValueOf(bits[..n]) < Pow2(n)
  {
    ValueBound(bits[..n]);
  }

  /** A step from any label: what it leads to comes to the same, with the bits after the number. */
  lemma StepAgrees(size: nat, l: Saved, bits: Bits)
    requires Fits(l) && Width(l.state) <= |bits|
    ensures ValueOf(bits[..Width(l.state)]) < Pow2(Width(l.state))
    ensures Agreed(size, Stepped(size, l, ValueOf(bits[..Width(l.state)])), bits[Width(l.state)..], After(size, l, bits))
  {
    hide Fits, After, Stepped, Agreed, Pow2, ValueOf;
    NumberBound(bits, Width(l.state));
    match l.state
    case BlkHdr => StepBlkHdr(size, l, bits);
    case EndHdr => StepEndHdr(size, l, bits);
    case StreamCrc => StepCrc(size, l, bits);
    case BlockCrc => StepCrc(size, l, bits);
    case RandBit => StepRandBit(size, l, bits);
    case OrigPtr => StepOrigPtr(size, l, bits);
    case Mapping1 => StepMapping1(size, l, bits);
    case Mapping2 => StepMapping2(size, l, bits);
    case Selector1 => StepSelector1(size, l, bits);
    case Selector2 => StepSelector2(size, l, bits);
    case Selector3 => StepSelector3(size, l, bits);
    case Coding1 => StepCoding1(size, l, bits);
    case Coding2 => StepCoding2(size, l, bits);
    case Coding3 => StepCoding3(size, l, bits);
  }

  /** Bits that do not make up the next number make up no section. */
  lemma TooFew(size: nat, l: Saved, bits: Bits)
    requires Fits(l) && |bits| < Width(l.state)
    ensures After(size, l, bits) == Short
  {
    hide Used, ValueOf, Shl, FromRows, FromPointer, FromPlaces;
    match l.state
    case BlkHdr => assert |BLOCK_MAGIC[l.i..]| == 6 - l.i;
    case EndHdr => assert |END_MAGIC[l.i..]| == 6 - l.i;
    case _ =>
  }
}
