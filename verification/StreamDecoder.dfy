/** Decompressing a stream from and into the caller's buffers, however these cut it. */
module StreamDecoder {
  import opened Permutations
  import opened BitStream
  import opened CanonicalCodes
  import opened MoveToFront
  import opened MtfDecoder
  import opened BlockFormat
  import opened BlockHeader
  import opened Streams
  import opened BitFeed
  import opened SectionSteps
  import opened SectionReader
  import opened BlockDecoder
  import opened RunLength
  import opened BlockOutput
  import opened StreamSpec

  datatype DPhase = Magic(i: nat) | SizeByte | InSection | InData | Handing | Ended | Failed
  datatype DCode = Ok | StreamEnd | DataError | MagicError | SequenceError

  lemma PrefixedParts(p: seq<Byte>, r: Parsed<seq<Byte>>)
    ensures r.Got? <==> Prefixed(p, r).Got?
    ensures r.Got? ==> Prefixed(p, r) == Got(p + r.value, r.rest)
    ensures !r.Got? ==> Prefixed(p, r) == r
  {
  }

  lemma PrefixedNone(r: Parsed<seq<Byte>>)
    ensures Prefixed([], r) == r
  {
    if r.Got? {
      assert [] + r.value == r.value;
    }
  }

  /** Byte k of a stream's header: B, Z, h, and a digit from 1 to 9. */
  predicate HeaderByte(k: nat, c: Byte) {
    if k == 0 then c == 0x42 else if k == 1 then c == 0x5a else if k == 2 then c == 0x68 else 0x31 <= c <= 0x39
  }

  /** The first n bytes are the beginning of a header, or begin with one. */
  predicate StartsWell(bytes: seq<Byte>, n: nat)
    requires n <= |bytes|
  {
    forall k :: 0 <= k < n && k < 4 ==> HeaderByte(k, bytes[k])
  }

  class DState {
    const rs: Rules
    const smallDecompress: bool
    const feed: Feed
    var phase: DPhase
    var size: nat
    var sec: SectionState?
    var data: DataState?
    var cur: OutputState?
    var header: Header
    var storedBlockCRC: Crc
    var calculatedCombinedCRC: Crc
    /** What the whole stream decodes to, what is wanted of the section being read, and the text of the blocks handed out. */
    ghost const whole: Parsed<seq<Byte>>
    /** All bytes of the stream. */
    ghost const bytes: seq<Byte>
    ghost var wanted: Parsed<Section>
    ghost var done: seq<Byte>
    ghost var repr: set<object>

    ghost predicate Reading()
      reads this, repr, feed
    {
      && RulesOk(rs) && sec != null && sec in repr && 1 <= size <= 9 && sec.size == size && sec.Stands(feed, wanted)
      && (wanted.Got? && wanted.value.Block? ==> HeaderOk(wanted.value.header))
      && whole == Prefixed(done, SectionThen(rs, size, calculatedCombinedCRC, wanted))
    }

    ghost predicate DataOwned()
      reads this, repr
    {
      && data != null && data in repr && data.sr in repr && data.store in repr && data.unzftab in repr
      && data.mtfa in repr && data.mtfbase in repr
    }

    ghost predicate Decoding()
      reads this, repr, feed
    {
      && RulesOk(rs) && DataOwned() && 1 <= size <= 9 && data.Valid(feed) && data.nblockMAX == BLOCK_UNIT * size
      && HeaderOk(header) && data.toByte == ToByte(header.inUse)
      && whole == Prefixed(done, BlockThen(rs, size, calculatedCombinedCRC, header, ColumnFrom(header, data.want, data.end)))
    }

    ghost predicate OutOwned()
      reads this, repr
    {
      && cur != null && cur in repr && cur.src in repr && cur.src.tt in repr && cur.src.ll16 in repr
      && cur.src.ll4 in repr && cur.src.cftab in repr
    }

    ghost predicate Showing()
      reads this, repr, feed
    {
      && RulesOk(rs) && OutOwned() && 1 <= size <= 9 && cur.Valid() && cur.rule == rs.rule
      && whole == Prefixed(done, HandThen(rs, size, calculatedCombinedCRC, cur.src.b, storedBlockCRC, feed.Pending()))
    }

    ghost predicate Valid()
      reads this, repr, feed
    {
      && RulesOk(rs) && feed.Valid() && this !in repr && feed !in repr
      && match phase
         case Magic(i) => i < 3 && done == [] && whole == MagicThen(rs, i, feed.Pending())
         case SizeByte => done == [] && whole == SizeThen(rs, feed.Pending())
         case InSection => Reading()
         case InData => Decoding()
         case Handing => Showing()
         case Ended => whole.Got? && whole.value == done
         case Failed => whole == Invalid
    }

    /** The bytes still to be taken are the last of all; those taken are a header, as far as they go. */
    ghost predicate Begun()
      reads this`phase, feed
    {
      && |feed.ahead| <= |bytes| && feed.ahead == bytes[|bytes| - |feed.ahead|..]
      && match phase
         case Magic(i) => |bytes| - |feed.ahead| == i < 3 && feed.bsLive == 0 && StartsWell(bytes, i)
         case SizeByte => |bytes| - |feed.ahead| == 3 && feed.bsLive == 0 && StartsWell(bytes, 3)
         case Failed => true
         case _ => |bytes| - |feed.ahead| >= 4 && StartsWell(bytes, 4)
    }

    /** How many bytes have been given, those not yet taken included. */
    ghost function Given(strm: Strm): (n: nat)
      requires Begun() && |strm.input| <= |feed.ahead|
      ensures n <= |bytes|
      reads this`phase, feed, strm
    {
      |bytes| - |feed.ahead| + |strm.input|
    }

    /** The bytes handed out so far. */
    ghost function Emitted(): seq<Byte>
      requires phase == Handing ==> cur != null
      reads this, if phase == Handing then {cur} else {}
    {
      done + if phase == Handing then cur.out else []
    }

    /** A decoder for any bytes at all; they are given to it later, piece by piece. */
    constructor (rules: Rules, small: bool, ghost zbits: seq<Byte>)
      requires RulesOk(rules)
      ensures Valid() && phase == Magic(0) && Emitted() == [] && fresh(feed) && repr == {} && feed.ahead == zbits
      ensures whole == DecodeStream(rules, BytesToBits(zbits)) && rs == rules && bytes == zbits && Begun()
    {
      bytes := zbits;
      feed := new Feed(zbits);
      rs, smallDecompress := rules, small;
      phase, size, sec, data, cur := Magic(0), 0, null, null, null;
      header := Header([], 0, 0, [], [], []);
      storedBlockCRC, calculatedCombinedCRC := [0, 0, 0, 0], [0, 0, 0, 0];
      whole, wanted, done, repr := DecodeStream(rules, BytesToBits(zbits)), Short, [], {};
    }

    /** Which byte of the header is next. */
    lemma HeaderPlace() returns (i: nat)
      requires Begun() && (phase.Magic? || phase == SizeByte)
      ensures i == (if phase.Magic? then phase.i else 3) <= 3 && (phase.Magic? ==> i < 3) && feed.bsLive == 0
      ensures i <= |bytes| && feed.ahead == bytes[i..] && StartsWell(bytes, i)
    {
      i := if phase.Magic? then phase.i else 3;
    }

    /** One byte more of the header has been taken. */
    lemma HeaderGoesOn(i: nat, c: nat, a0: seq<Byte>)
      requires i <= 3 && i == (if phase.Magic? then phase.i else 3) && (phase.Magic? ==> i < 3) && (phase.Magic? || phase == SizeByte)
      requires i <= |bytes| && a0 == bytes[i..] && StartsWell(bytes, i)
      requires a0 != [] && c == a0[0] && feed.ahead == a0[1..]
      ensures i < |bytes| && c == bytes[i] && feed.ahead == bytes[i + 1..]
      ensures StartsWell(bytes, i + 1) <==> if phase.Magic? then c == MAGIC[phase.i] else 0x31 <= c <= 0x39
      ensures StartsWell(bytes, |bytes| - |feed.ahead|) <==> StartsWell(bytes, i + 1)
    {
      assert MAGIC[0] == 0x42 && MAGIC[1] == 0x5a && MAGIC[2] == 0x68;
      assert StartsWell(bytes, i + 1) <==> HeaderByte(i, c);
    }

    lemma StillAt(i: nat)
      requires i == (if phase.Magic? then phase.i else 3) <= 3 && (phase.Magic? ==> i < 3) && (phase.Magic? || phase == SizeByte) && feed.bsLive == 0
      requires i <= |bytes| && feed.ahead == bytes[i..] && StartsWell(bytes, i)
      ensures Begun()
    {
    }

    /** What has been taken is all right, wherever the reading is now. */
    lemma NowAt(i: nat)
      requires 0 < i <= 4 && i <= |bytes| && feed.ahead == bytes[i..]
      requires phase == Failed || StartsWell(bytes, i)
      requires phase.Magic? ==> phase.i == i < 3 && feed.bsLive == 0
      requires phase == SizeByte ==> i == 3 && feed.bsLive == 0
      requires !phase.Magic? && phase != SizeByte && phase != Failed ==> i == 4
      ensures Begun()
    {
    }

    /** Behind the header it stays so. */
    lemma StillBegun(i0: seq<Byte>, a0: seq<Byte>, i1: seq<Byte>)
      requires |bytes| - |a0| >= 4 && a0 == bytes[|bytes| - |a0|..] && StartsWell(bytes, 4) && TakenOf(i0, a0, i1, feed.ahead)
      requires !phase.Magic? && phase != SizeByte
      ensures Begun() && |bytes| - |feed.ahead| >= 4
    {
    }

    lemma BegunParts()
      requires Begun()
      ensures |feed.ahead| <= |bytes| && feed.ahead == bytes[|bytes| - |feed.ahead|..]
      ensures !phase.Magic? && phase != SizeByte && phase != Failed ==> |bytes| - |feed.ahead| >= 4 && StartsWell(bytes, 4)
    {
    }

    /** One byte of the magic number, or the byte of the block size. */
    method ReadStart(strm: Strm) returns (code: DCode, stop: bool)
      requires Valid() && Begun() && (phase.Magic? || phase == SizeByte) && strm.input <= feed.ahead && strm !in repr
      modifies this`phase, this`size, this`sec, this`wanted, this`repr, this`calculatedCombinedCRC, feed, strm`input
      ensures Valid() && TakenOf(old(strm.input), old(feed.ahead), strm.input, feed.ahead) && fresh(repr - old(repr))
      ensures done == old(done) && phase != Handing && phase != Ended && (code == Ok ==> phase != Failed)
      ensures code == Ok || (code == MagicError && stop && phase == Failed)
      ensures code == Ok && stop ==> strm.input == [] && (feed.ahead == [] ==> whole == Short)
      ensures !stop ==> |feed.Pending()| < |old(feed.Pending())|
      ensures Begun() && (code == MagicError ==> !StartsWell(bytes, |bytes| - |feed.ahead|))
    {
      hide Feed.Pending, TakenOf, DecodeFrom, ParseSection, SectionThen, Begun, StartsWell;
      ghost var bits := feed.Pending();
      ghost var i := HeaderPlace();
      var ok, c := feed.GetBits(strm, 8);
      if ok { HeaderGoesOn(i, c, old(feed.ahead)); } else { StillAt(i); }
      StartParses(rs, if phase.Magic? then phase.i else 0, bits);
      PrefixedNone(whole);
      if !ok { return Ok, true; }
      var good := AfterByte(c);
      NowAt(i + 1);
      code, stop := if good then Ok else MagicError, !good;
    }

    /** The byte is checked, and what comes after it is next. */
    method AfterByte(c: nat) returns (good: bool)
      requires RulesOk(rs) && feed.Valid() && this !in repr && feed !in repr && done == []
      requires (phase.Magic? && phase.i < 3) || phase == SizeByte
      requires phase.Magic? ==>
                 whole == (if c != MAGIC[phase.i] then Invalid
                           else if phase.i < 2 then MagicThen(rs, phase.i + 1, feed.Pending()) else SizeThen(rs, feed.Pending()))
      requires phase == SizeByte ==>
                 whole == (if c < 0x30 + 1 || c > 0x30 + 9 then Invalid else DecodeFrom(rs, c - 0x30, [0, 0, 0, 0], feed.Pending()))
      modifies this`phase, this`size, this`sec, this`wanted, this`repr, this`calculatedCombinedCRC
      ensures Valid() && fresh(repr - old(repr))
      ensures good == if old(phase).Magic? then c == MAGIC[old(phase).i] else 0x31 <= c <= 0x39
      ensures phase == (if !good then Failed else if old(phase) == SizeByte then InSection
                        else if old(phase).i < 2 then Magic(old(phase).i + 1) else SizeByte)
    {
      hide Feed.Pending, DecodeFrom, MagicThen, SizeThen;
      good := true;
      if phase.Magic? {
        if c != MAGIC[phase.i] {
          phase := Failed;
          return false;
        }
        phase := if phase.i < 2 then Magic(phase.i + 1) else SizeByte;
      } else {
        if c < 0x30 + 1 || c > 0x30 + 9 {
          phase := Failed;
          return false;
        }
        size := c - 0x30;
        calculatedCombinedCRC := [0, 0, 0, 0];
        PrefixedNone(whole);
        StartSection();
      }
    }

    /** Begins to read a section. */
    method StartSection()
      requires RulesOk(rs) && feed.Valid() && this !in repr && feed !in repr && 1 <= size <= 9
      requires whole == Prefixed(done, DecodeFrom(rs, size, calculatedCombinedCRC, feed.Pending()))
      modifies this`phase, this`sec, this`wanted, this`repr
      ensures Valid() && phase == InSection && fresh(repr - old(repr))
    {
      hide Feed.Pending, ParseSection, SectionThen;
      SectionFacts(size, feed.Pending());
      DecodeIs(rs, size, calculatedCombinedCRC, feed.Pending());
      wanted := ParseSection(size, feed.Pending());
      sec := new SectionState(size, feed);
      repr := repr + {sec};
      phase := InSection;
    }

    /** Reads on in a section. */
    method ReadSection(strm: Strm) returns (code: DCode, stop: bool)
      requires Valid() && phase == InSection && strm.input <= feed.ahead && strm !in repr
      modifies this`phase, this`data, this`header, this`done, this`repr, sec, feed, strm`input
      ensures Valid() && TakenOf(old(strm.input), old(feed.ahead), strm.input, feed.ahead) && fresh(repr - old(repr))
      ensures done == old(done) && phase != Handing
      ensures code == Ok && stop ==> phase == InSection && strm.input == [] && (feed.ahead == [] ==> whole == Short)
      ensures code == StreamEnd ==> stop && phase == Ended
      ensures code == DataError ==> stop && phase == Failed
      ensures code == Ok || code == StreamEnd || code == DataError
      ensures !stop ==> code == Ok && phase == InData && |feed.Pending()| < |old(feed.Pending())|
    {
      hide Feed.Pending, TakenOf, ParseSection, HandThen, BlockThen, DataTail, DataOutcome, SectionState.Stands, HeaderOk;
      var status, section := sec.Resume(feed, strm, wanted);
      SectionIs(rs, size, calculatedCombinedCRC, wanted, done);
      if status == NoInput { return Ok, true; }
      if status == Bad {
        phase := Failed;
        return DataError, true;
      }
      if section.End? {
        if section.combinedCrc != calculatedCombinedCRC {
          phase := Failed;
          return DataError, true;
        }
        phase := Ended;
        return StreamEnd, true;
      }
      BeginData(section.header);
      code, stop := Ok, false;
    }

    /** A block's header has been read. */
    method BeginData(h: Header)
      requires RulesOk(rs) && feed.Valid() && this !in repr && feed !in repr && 1 <= size <= 9 && HeaderOk(h)
      requires var t := DataTail(h, feed.Pending());
               whole == Prefixed(done, BlockThen(rs, size, calculatedCombinedCRC, h, ColumnFrom(h, DataOutcome(h, size, t.codes), t.end)))
      modifies this`phase, this`data, this`header, this`repr
      ensures Valid() && phase == InData && fresh(repr - old(repr))
    {
      hide Feed.Pending, BlockThen, DataTail, DataOutcome, HeaderOk, DataState.Valid, ColumnFrom, RulesOk, Prefixed, MagicThen, SizeThen,
        SectionThen, SectionState.Stands, HandThen, OutputState.Valid, ToByte, Valid, Showing, Reading, DecodeFrom;
      HeaderPlain(h);
      header := h;
      var store, unzftab := new nat[BLOCK_UNIT * size](_ => 0), new nat[256](_ => 0);
      data := StartData(h, size, store, unzftab, feed);
      repr := repr + {data, data.sr, store, unzftab, data.mtfa, data.mtfbase};
      phase := InData;
      NowDecoding();
    }

    lemma NowDecoding()
      requires RulesOk(rs) && feed.Valid() && this !in repr && feed !in repr && phase == InData && Decoding()
      ensures Valid()
    {
      hide Decoding, RulesOk;
    }

    lemma DataArrays()
      requires data != null && data.Valid(feed)
      ensures data.store != data.unzftab && data.nblockMAX <= data.store.Length && data.unzftab.Length == 256
    {
    }

    /** Decodes on in a block's data; once they are all there, makes its characters ready. */
    method ReadData(strm: Strm) returns (code: DCode, stop: bool)
      requires Valid() && phase == InData && strm.input <= feed.ahead && strm !in repr
      modifies this`phase, this`cur, this`storedBlockCRC, this`repr, repr, feed, strm`input
      ensures Valid() && TakenOf(old(strm.input), old(feed.ahead), strm.input, feed.ahead) && fresh(repr - old(repr))
      ensures done == old(done) && phase != Ended && (phase == Handing ==> cur != null && cur.out == [])
      ensures code == Ok && stop ==> phase == InData && strm.input == [] && (feed.ahead == [] ==> whole == Short)
      ensures code == DataError ==> stop && phase == Failed
      ensures code == Ok || code == DataError
      ensures !stop ==> code == Ok && phase == Handing && |feed.Pending()| < |old(feed.Pending())|
    {
      hide Feed.Pending, TakenOf, HandThen, DataState.Valid, HeaderOk, ToByte, OutputState.Valid, BlockChars, Stored, Chars, Undo;
      DataArrays();
      var status := data.Resume(feed, strm);
      ColumnIs(rs, size, calculatedCombinedCRC, header, data.want, data.end, done);
      if status == NoInput { return Ok, true; }
      if status == Bad || header.origPtr >= data.nblock {
        phase := Failed;
        return DataError, true;
      }
      HeaderPlain(header);
      BeginOut();
      code, stop := Ok, false;
    }

    /** A block's data are all there. */
    method BeginOut()
      requires RulesOk(rs) && feed.Valid() && this !in repr && feed !in repr && 1 <= size <= 9 && DataOwned() && HeaderPlainly()
      requires data.store != data.unzftab && BLOCK_UNIT * size <= data.store.Length && data.unzftab.Length == 256
      requires data.nblock == |data.s| <= BLOCK_UNIT * size && header.origPtr < data.nblock
      requires Stored(data.store[..], data.unzftab[..], ToByte(header.inUse), data.s)
      requires var l := AsBytes(Chars(ToByte(header.inUse), data.s));
               whole == Prefixed(done, HandThen(rs, size, calculatedCombinedCRC,
                                                BlockChars(l, header.origPtr, header.randomised == 1, rs.rNums), header.crc, feed.Pending()))
      modifies this`phase, this`cur, this`storedBlockCRC, this`repr, data.store
      ensures Valid() && phase == Handing && cur.out == [] && fresh(repr - old(repr))
    {
      hide Feed.Pending, HandThen, ToByte, OutputState.Valid, BlockChars, Stored, Chars, Prefixed, MagicThen, SizeThen, SectionThen,
        SectionState.Stands, BlockThen, ColumnFrom, DataState.Valid, HeaderOk;
      cur := OpenBlock(size, smallDecompress, rs, header, data.nblock, data.store, data.unzftab, data.s);
      storedBlockCRC := header.crc;
      repr := repr + {cur, cur.src, cur.src.tt, cur.src.ll16, cur.src.ll4, cur.src.cftab};
      phase := Handing;
    }

    ghost predicate HeaderPlainly()
      reads this`header
    {
      |header.crc| == 4 && |header.inUse| == 256
    }

    /** Hands out bytes of the current block; once all are out, checks it and goes on to the next section. */
    method HandOut(strm: Strm) returns (code: DCode, stop: bool)
      requires Valid() && phase == Handing && strm !in repr
      modifies this`phase, this`sec, this`wanted, this`done, this`repr, this`calculatedCombinedCRC, repr, strm`availOut, strm`output
      ensures Valid() && fresh(repr - old(repr)) && Passed(old(strm.output), old(Emitted()), strm.output, Emitted())
      ensures strm.availOut + |strm.output| == old(strm.availOut + |strm.output|)
      ensures code == Ok && stop ==> phase == Handing && strm.availOut == 0
      ensures code == DataError ==> stop && phase == Failed
      ensures code == Ok || code == DataError
      ensures !stop ==> code == Ok && phase == InSection
    {
      hide Feed.Pending, HandThen, DecodeFrom, OutputState.Valid, Passed, Unrle, CrcOf;
      ghost var before, out0, output0 := done, cur.out, strm.output;
      var corrupt := Unrled(strm);
      PassedAfter(before, output0, out0, strm.output, cur.out);
      ghost var b := cur.src.b;
      if corrupt {
        HandBroken(rs, size, calculatedCombinedCRC, b, storedBlockCRC, feed.Pending(), done);
        Give();
        phase := Failed;
        return DataError, true;
      }
      if !cur.Done() {
        return Ok, true;
      }
      cur.DoneRight();
      HandWhole(rs, size, calculatedCombinedCRC, b, storedBlockCRC, feed.Pending(), done, cur.out);
      CrcSoFar();
      var calculated := (rs.rule.finish)(cur.calculatedBlockCRC);
      Give();
      if calculated != storedBlockCRC {
        phase := Failed;
        return DataError, true;
      }
      calculatedCombinedCRC := (rs.rule.join)(calculatedCombinedCRC, calculated);
      StartSection();
      code, stop := Ok, false;
    }

    /** Expands runs in the form the decoder works in. */
    method Unrled(strm: Strm) returns (corrupt: bool)
      requires Valid() && phase == Handing && strm !in repr
      modifies repr, strm`availOut, strm`output
      ensures Valid() && cur.src.b == old(cur.src.b) && Passed(old(strm.output), old(cur.out), strm.output, cur.out)
      ensures strm.availOut + |strm.output| == old(strm.availOut + |strm.output|)
      ensures corrupt ==> Unrle(cur.src.b) == Broken
      ensures !corrupt ==> cur.Done() || strm.availOut == 0
    {
      hide HandThen, OutputState.Valid, Passed, Unrle;
      if smallDecompress || cur.src.randomised {
        corrupt := cur.UnrleSmall(strm);
      } else {
        corrupt := cur.UnrleFast(strm);
      }
    }

    /** What the block gave now counts among what has been handed out. */
    ghost method Give()
      requires cur != null
      modifies this`done
      ensures done == old(done) + cur.out
    {
      done := done + cur.out;
    }

    lemma CrcSoFar()
      requires cur != null && cur.Valid() && cur.rule == rs.rule
      ensures cur.calculatedBlockCRC == CrcOf(rs.rule, cur.out)
    {
    }

    /** One step of a call: something read, or bytes handed out. */
    method Turn(strm: Strm) returns (code: DCode, stop: bool)
      requires Valid() && Begun() && phase != Ended && phase != Failed && strm.input <= feed.ahead && strm !in repr
      modifies this, feed, repr, strm
      ensures Valid() && Begun() && fresh(repr - old(repr)) && strm !in repr
      ensures code == MagicError ==> !StartsWell(bytes, |bytes| - |feed.ahead|)
      ensures code == DataError || code == StreamEnd ==> |bytes| - |feed.ahead| >= 4 && StartsWell(bytes, 4)
      ensures TakenOf(old(strm.input), old(feed.ahead), strm.input, feed.ahead)
      ensures Passed(old(strm.output), old(Emitted()), strm.output, Emitted())
      ensures strm.availOut + |strm.output| == old(strm.availOut + |strm.output|)
      ensures Outcome(code, stop, strm)
      ensures !stop ==> |feed.Pending()| < |old(feed.Pending())|
                        || (|feed.Pending()| == |old(feed.Pending())| && old(phase) == Handing && phase == InSection)
    {
      hide Feed.Pending, TakenOf, Reading, Decoding, Showing, DataOwned, OutOwned, Passed, Begun, StartsWell;
      BegunParts();
      TakenNone(strm.input, feed.ahead);
      OutThere();
      ghost var d := done;
      PassedNothing(strm.output, d);
      assert d + [] == d;
      if phase == Handing {
        code, stop := HandOut(strm);
      } else if phase.Magic? || phase == SizeByte {
        code, stop := ReadStart(strm);
      } else if phase == InSection {
        code, stop := ReadSection(strm);
      } else {
        code, stop := ReadData(strm);
      }
      if !old(phase.Magic?) && old(phase) != SizeByte {
        StillBegun(old(strm.input), old(feed.ahead), strm.input);
      }
    }

    /** When and how a call ends. */
    ghost predicate Outcome(code: DCode, stop: bool, strm: Strm)
      reads this, feed, strm
    {
      && (stop && code == Ok ==> phase != Ended && phase != Failed && ((phase == Handing && strm.availOut == 0) || strm.input == []))
      && (stop && code == Ok && strm.availOut > 0 && feed.ahead == [] ==> whole == Short)
      && (stop && (code == DataError || code == MagicError) ==> phase == Failed)
      && (stop && code == StreamEnd ==> phase == Ended)
      && (code == Ok || (stop && (code == StreamEnd || code == DataError || code == MagicError)))
      && (!stop ==> code == Ok && phase != Ended && phase != Failed)
    }

    lemma OutThere()
      requires Valid()
      ensures (phase == Handing ==> cur != null) && (phase == InSection ==> sec != null && sec in repr)
    {
      hide OutputState.Valid, SectionThen, BlockThen, HandThen, MagicThen, SizeThen, SectionState.Stands, DataState.Valid;
    }

    /**
     * One call by the user of the stream, any bytes at all being fed. However input and output are cut, the
     * end is reported exactly if the bytes as a whole decode to a text, when all of it has been handed out; what
     * has been handed out before is a beginning of it; an error is reported only if they do not. Which error:
     * the bytes given so far are no beginning of a header, or something else is wrong with the stream.
     */
    method BzDecompress(strm: Strm) returns (code: DCode)
      requires Valid() && Begun() && phase != Failed && strm.input <= feed.ahead && strm !in repr
      modifies this, feed, repr, strm
      ensures Valid() && Begun() && fresh(repr - old(repr)) && strm !in repr
      ensures TakenOf(old(strm.input), old(feed.ahead), strm.input, feed.ahead)
      ensures Passed(old(strm.output), old(Emitted()), strm.output, Emitted())
      ensures strm.availOut + |strm.output| == old(strm.availOut + |strm.output|)
      ensures code == SequenceError <==> old(phase) == Ended
      ensures code == Ok ==> phase != Ended && phase != Failed && (strm.availOut == 0 || strm.input == [])
      ensures code == Ok && strm.availOut > 0 && feed.ahead == [] ==> whole == Short
      ensures code == StreamEnd ==> phase == Ended && whole.Got? && Emitted() == whole.value
      ensures code == DataError || code == MagicError ==> phase == Failed && whole == Invalid
      ensures old(phase) != Ended ==> (code == MagicError <==> !StartsWell(bytes, old(Given(strm))))
      ensures code == DataError ==> 4 <= |bytes| && StartsWell(bytes, 4)
      ensures whole.Got? ==> Emitted() <= whole.value
    {
      hide Feed.Pending, TakenOf, Reading, Decoding, Showing, DataOwned, OutOwned, Passed, Valid, Begun;
      Shown();
      BegunParts();
      PassedNothing(strm.output, Emitted());
      TakenNone(strm.input, feed.ahead);
      if phase == Ended { return SequenceError; }
      while true
        invariant Valid() && Begun() && phase != Ended && phase != Failed && fresh(repr - old(repr)) && strm !in repr
        invariant (phase == Handing ==> cur != null) && strm.input <= feed.ahead
        invariant TakenOf(old(strm.input), old(feed.ahead), strm.input, feed.ahead)
        invariant Passed(old(strm.output), old(Emitted()), strm.output, Emitted())
        invariant strm.availOut + |strm.output| == old(strm.availOut + |strm.output|)
        decreases |feed.Pending()|, phase == Handing
      {
        ghost var out0, em0, in0, a0 := strm.output, Emitted(), strm.input, feed.ahead;
        var stop;
        code, stop := Turn(strm);
        Shown();
        TakenTwice(old(strm.input), old(feed.ahead), in0, a0, strm.input, feed.ahead);
        TakenAhead(in0, a0, strm.input, feed.ahead);
        WhichError(old(strm.input), old(feed.ahead), strm.input);
        PassedTwice(old(strm.output), old(Emitted()), out0, em0, strm.output, Emitted());
        if stop { return; }
      }
    }

    /** What has been found of the header holds for all bytes given. */
    lemma WhichError(i0: seq<Byte>, a0: seq<Byte>, i1: seq<Byte>)
      requires Begun() && |a0| <= |bytes| && TakenOf(i0, a0, i1, feed.ahead)
      ensures |i0| <= |a0| && |feed.ahead| <= |bytes| && |bytes| - |feed.ahead| <= |bytes| - |a0| + |i0|
      ensures !StartsWell(bytes, |bytes| - |feed.ahead|) ==> !StartsWell(bytes, |bytes| - |a0| + |i0|)
      ensures 4 <= |bytes| && StartsWell(bytes, 4) ==> StartsWell(bytes, |bytes| - |a0| + |i0|)
      ensures i1 == [] && phase != Failed ==> StartsWell(bytes, |bytes| - |a0| + |i0|)
      ensures phase == Handing ==> 4 <= |bytes| && StartsWell(bytes, 4)
    {
    }

    /** What has been handed out is the text from its start. */
    lemma Shown()
      requires Valid()
      ensures phase == Handing ==> cur != null
      ensures whole.Got? ==> Emitted() <= whole.value
      ensures phase == Ended ==> whole.Got? && Emitted() == whole.value
      ensures phase == Failed ==> whole == Invalid
    {
      hide Feed.Pending, DecodeFrom, OutputState.Valid, SectionThen, BlockThen, HandThen, MagicThen, SizeThen, Unrle;
      assert done + [] == done;
      if phase == InSection {
        PrefixedParts(done, SectionThen(rs, size, calculatedCombinedCRC, wanted));
      } else if phase == InData {
        PrefixedParts(done, BlockThen(rs, size, calculatedCombinedCRC, header, ColumnFrom(header, data.want, data.end)));
      } else if phase == Handing {
        cur.OutBegins();
        HandBegins(rs, size, calculatedCombinedCRC, cur.src.b, storedBlockCRC, feed.Pending(), done, cur.out);
      }
    }
  }

  lemma DecodeIs(rs: Rules, size: nat, combined: Crc, bits: Bits)
    requires RulesOk(rs)
    ensures var section := ParseSection(size, bits);
            (section.Got? && section.value.Block? ==> HeaderOk(section.value.header))
            && DecodeFrom(rs, size, combined, bits) == SectionThen(rs, size, combined, section)
  {
    hide ParseSection, HandThen, BlockThen, DataTail, DataOutcome;
    SectionFacts(size, bits);
  }

  /** The first bytes, one at a time. */
  lemma StartParses(rs: Rules, i: nat, bits: Bits)
    requires RulesOk(rs) && i < 3
    ensures |bits| < 8 ==> MagicThen(rs, i, bits) == Short && SizeThen(rs, bits) == Short
    ensures |bits| >= 8 ==>
              var c, rest := ValueOf(bits[..8]), bits[8..];
              && MagicThen(rs, i, bits)
                 == (if c != MAGIC[i] then Invalid else if i < 2 then MagicThen(rs, i + 1, rest) else SizeThen(rs, rest))
              && SizeThen(rs, bits)
                 == if c < 0x30 + 1 || c > 0x30 + 9 then Invalid else DecodeFrom(rs, c - 0x30, [0, 0, 0, 0], rest)
  {
    hide DecodeFrom;
    if |bits| >= 8 {
      hide SizeThen;
      ExpectNext(MAGIC, i, bits);
    } else {
      assert MAGIC[i..] != [];
    }
  }

  /** What a section comes to. */
  lemma SectionIs(rs: Rules, size: nat, combined: Crc, w: Parsed<Section>, done: seq<Byte>)
    requires RulesOk(rs) && (w.Got? && w.value.Block? ==> HeaderOk(w.value.header))
    ensures var r := Prefixed(done, SectionThen(rs, size, combined, w));
            && (w.Short? ==> r == Short) && (w.Invalid? ==> r == Invalid)
            && (w.Got? && w.value.End? ==> r == if w.value.combinedCrc == combined then Got(done, w.rest) else Invalid)
            && (w.Got? && w.value.Block? ==>
                  var t := DataTail(w.value.header, w.rest);
                  r == Prefixed(done, BlockThen(rs, size, combined, w.value.header,
                                                ColumnFrom(w.value.header, DataOutcome(w.value.header, size, t.codes), t.end))))
  {
    hide HandThen, BlockThen, DataTail, DataOutcome, HeaderOk;
    assert done + [] == done;
  }

  lemma HeaderPlain(h: Header)
    requires HeaderOk(h)
    ensures |h.crc| == 4 && |h.inUse| == 256
  {
  }

  /** What a block comes to once its codes are known. */
  lemma ColumnIs(rs: Rules, size: nat, combined: Crc, h: Header, o: Outcome, end: Fetch, done: seq<Byte>)
    requires RulesOk(rs) && HeaderOk(h)
    ensures var r := Prefixed(done, BlockThen(rs, size, combined, h, ColumnFrom(h, o, end)));
            && (Verdict(o, end) == Bad ==> r == Invalid) && (Verdict(o, end) == NoInput ==> r == Short)
            && (o.Done? && end.Symbol? && h.origPtr >= |o.block| ==> r == Invalid)
            && (o.Done? && end.Symbol? && h.origPtr < |o.block| ==>
                  var l := AsBytes(Chars(ToByte(h.inUse), o.block));
                  r == Prefixed(done, HandThen(rs, size, combined, BlockChars(l, h.origPtr, h.randomised == 1, rs.rNums), h.crc, end.rest)))
  {
    hide HandThen, BlockChars, ToByte, Chars;
  }

  lemma PassedAfter(texts: seq<Byte>, output0: seq<Byte>, out0: seq<Byte>, output1: seq<Byte>, out1: seq<Byte>)
    requires Passed(output0, out0, output1, out1)
    ensures Passed(output0, texts + out0, output1, texts + out1) && Passed(output0, texts + out0, output1, texts + out1 + [])
  {
    assert (texts + out1)[|texts + out0|..] == out1[|out0|..];
    assert texts + out1 + [] == texts + out1;
  }

  lemma HandBroken(rs: Rules, size: nat, combined: Crc, b: seq<Byte>, crc: Crc, rest: Bits, done: seq<Byte>)
    requires RulesOk(rs) && Unrle(b) == Broken
    ensures Prefixed(done, HandThen(rs, size, combined, b, crc, rest)) == Invalid
  {
    hide Unrle, DecodeFrom;
  }

  /** A block handed out whole: the rest of the stream follows, or the checksum is wrong. */
  lemma HandWhole(rs: Rules, size: nat, combined: Crc, b: seq<Byte>, crc: Crc, rest: Bits, done: seq<Byte>, out: seq<Byte>)
    requires RulesOk(rs) && Unrle(b) == Text(out)
    ensures Prefixed(done, HandThen(rs, size, combined, b, crc, rest))
            == if (rs.rule.finish)(CrcOf(rs.rule, out)) != crc then Invalid
               else Prefixed(done + out, DecodeFrom(rs, size, (rs.rule.join)(combined, crc), rest))
  {
    hide Unrle, DecodeFrom, CrcOf;
    PrefixedTwice(done, out, DecodeFrom(rs, size, (rs.rule.join)(combined, crc), rest));
  }

  lemma HandBegins(rs: Rules, size: nat, combined: Crc, b: seq<Byte>, crc: Crc, rest: Bits, done: seq<Byte>, out: seq<Byte>)
    requires RulesOk(rs) && (Unrle(b).Text? ==> out <= Unrle(b).s)
    ensures var r := Prefixed(done, HandThen(rs, size, combined, b, crc, rest)); r.Got? ==> done + out <= r.value
  {
    hide Unrle, DecodeFrom, CrcOf;
    if Unrle(b).Text? {
      var more := DecodeFrom(rs, size, (rs.rule.join)(combined, crc), rest);
      PrefixedTwice(done, Unrle(b).s, more);
      PrefixedParts(done + Unrle(b).s, more);
    }
  }

  // ---- Whole streams ----

  /** The input is what is left of the first `fed` bytes. */
  ghost predicate Fed(zbits: seq<Byte>, fed: nat, input: seq<Byte>, ahead: seq<Byte>) {
    && |ahead| <= |zbits| && |zbits| - |ahead| <= fed <= |zbits|
    && ahead == zbits[|zbits| - |ahead|..] && input == zbits[|zbits| - |ahead|..fed]
  }

  lemma FedAhead(zbits: seq<Byte>, fed: nat, input: seq<Byte>, ahead: seq<Byte>, more: nat)
    requires Fed(zbits, fed, input, ahead) && fed + more <= |zbits|
    ensures Fed(zbits, fed + more, input + zbits[fed..fed + more], ahead) && input <= ahead
    ensures input + zbits[fed..fed + more] <= ahead
    ensures fed == |zbits| ==> input == ahead
  {
  }

  lemma FedTaken(zbits: seq<Byte>, fed: nat, i0: seq<Byte>, a0: seq<Byte>, i1: seq<Byte>, a1: seq<Byte>)
    requires Fed(zbits, fed, i0, a0) && TakenOf(i0, a0, i1, a1)
    ensures Fed(zbits, fed, i1, a1) && |a0| - |a1| == |i0| - |i1| >= 0
  {
  }

  lemma FedFirst(zbits: seq<Byte>)
    ensures Fed(zbits, 0, [], zbits)
  {
  }

  lemma SameOutput(out0: seq<Byte>, em0: seq<Byte>, out1: seq<Byte>, em1: seq<Byte>)
    requires Passed(out0, em0, out1, em1) && out0 == em0
    ensures out1 == em1
  {
  }

  /** Some of the bytes have been fed, and what they decode to has been handed out so far. */
  ghost predicate Underway(d: DState, strm: Strm, zbits: seq<Byte>, fed: nat)
    reads d, d.repr, d.feed, strm
  {
    && d.Valid() && d.Begun() && d.phase != Ended && d.phase != Failed && strm !in d.repr && d.whole.Got?
    && (d.phase == Handing ==> d.cur != null) && strm.output == d.Emitted() && |strm.output| <= |d.whole.value|
    && Fed(zbits, fed, strm.input, d.feed.ahead)
  }

  /** Gives more input and room. */
  method Give(d: DState, strm: Strm, zbits: seq<Byte>, fed0: nat) returns (fed: nat)
    requires Underway(d, strm, zbits, fed0)
    modifies strm
    ensures Underway(d, strm, zbits, fed) && strm.input <= d.feed.ahead && strm.output == old(strm.output)
    ensures strm.availOut > 0 && (fed < |zbits| ==> strm.input != []) && (fed == |zbits| ==> strm.input == d.feed.ahead)
  {
    hide DState.Valid, DState.Begun, Fed;
    FedRoom(zbits, fed0, strm.input, d.feed.ahead);
    var more, room := PieceSizes(|zbits| - fed0);
    FedAhead(zbits, fed0, strm.input, d.feed.ahead, more);
    fed := fed0 + more;
    strm.input := strm.input + zbits[fed0..fed];
    FedAhead(zbits, fed, strm.input, d.feed.ahead, 0);
    strm.availOut := room;
  }

  lemma FedRoom(zbits: seq<Byte>, fed: nat, input: seq<Byte>, ahead: seq<Byte>)
    requires Fed(zbits, fed, input, ahead)
    ensures fed <= |zbits|
  {
  }

  /** One call on the way. */
  method Take(d: DState, strm: Strm, ghost zbits: seq<Byte>, ghost fed: nat) returns (code: DCode)
    requires Underway(d, strm, zbits, fed) && strm.input <= d.feed.ahead && strm.availOut > 0
    requires (fed < |zbits| ==> strm.input != []) && (fed == |zbits| ==> strm.input == d.feed.ahead)
    modifies d, d.repr, d.feed, strm
    ensures fresh(d.repr - old(d.repr)) && (code == StreamEnd ==> strm.output == d.whole.value)
    ensures code != StreamEnd ==>
              Underway(d, strm, zbits, fed)
              && |d.feed.ahead| + |d.whole.value| - |strm.output| < old(|d.feed.ahead| + |d.whole.value| - |strm.output|)
  {
    hide *;
    FedParts(d, strm, zbits, fed);
    d.Shown();
    ghost var in0, a0, out0, em0 := strm.input, d.feed.ahead, strm.output, d.Emitted();
    code := d.BzDecompress(strm);
    d.Shown();
    FedTaken(zbits, fed, in0, a0, strm.input, d.feed.ahead);
    SameOutput(out0, em0, strm.output, d.Emitted());
    PassedLength(out0, em0, strm.output, d.Emitted());
    if code != StreamEnd {
      GoesOn(d, strm, zbits, fed);
    }
  }

  lemma FedParts(d: DState, strm: Strm, zbits: seq<Byte>, fed: nat)
    requires Underway(d, strm, zbits, fed)
    ensures d.Valid() && d.Begun() && d.phase != Ended && d.phase != Failed && strm !in d.repr && d.whole.Got?
    ensures (d.phase == Handing ==> d.cur != null) && strm.output == d.Emitted() && |strm.output| <= |d.whole.value|
    ensures Fed(zbits, fed, strm.input, d.feed.ahead)
  {
    hide DState.Valid, DState.Begun;
  }

  lemma GoesOn(d: DState, strm: Strm, zbits: seq<Byte>, fed: nat)
    requires d.Valid() && d.Begun() && d.phase != Ended && d.phase != Failed && strm !in d.repr && d.whole.Got?
    requires (d.phase == Handing ==> d.cur != null) && strm.output == d.Emitted() && |strm.output| <= |d.whole.value|
    requires Fed(zbits, fed, strm.input, d.feed.ahead)
    ensures Underway(d, strm, zbits, fed)
  {
    hide DState.Valid, DState.Begun;
  }

  /**
   * Reads a stream back, fed in any number of pieces of any size, into pieces of any size: for every stream
   * that decodes to a text, that text comes out and the end is reported.
   */
  method ReadBack(zbits: seq<Byte>, rs: Rules, small: bool) returns (out: seq<Byte>)
    requires RulesOk(rs) && DecodeStream(rs, BytesToBits(zbits)).Got?
    ensures out == DecodeStream(rs, BytesToBits(zbits)).value
  {
    hide *;
    var d := new DState(rs, small, zbits);
    var strm := new Strm([], 0);
    ghost var text := d.whole.value;
    var fed: nat := 0;
    FedFirst(zbits);
    d.Shown();
    GoesOn(d, strm, zbits, fed);
    while true
      invariant Underway(d, strm, zbits, fed) && fresh(d) && fresh(d.feed) && fresh(strm) && fresh(d.repr) && d.whole.Got?
      invariant d.whole.value == text
      decreases |d.feed.ahead| + |text| - |strm.output|
    {
      FedParts(d, strm, zbits, fed);
      fed := Give(d, strm, zbits, fed);
      var code := Take(d, strm, zbits, fed);
      if code == StreamEnd { return strm.output; }
      FedParts(d, strm, zbits, fed);
    }
  }

  /** How much input and room to give next: anything, but not nothing. */
  method PieceSizes(left: nat) returns (more: nat, room: nat)
    ensures more <= left && (left > 0 ==> more > 0) && room > 0
  {
    more, room := *, *;
    if more > left || more == 0 {
      more := left;
    }
    if room == 0 {
      room := 1;
    }
  }
}
