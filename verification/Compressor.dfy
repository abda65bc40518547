/** The compressing stream: gathering runs into blocks, compressing blocks, handing out bytes. */
module Compressor {
  import opened Permutations
  import opened ByteView
  import opened BitStream
  import opened BlockHeader
  import opened BlockWriter
  import opened TableChoice
  import opened BlockCodec
  import opened RunLength
  import opened StreamFormat
  import opened Streams

  datatype Mode = Idle | Running | Flushing | Finishing
  datatype Phase = Input | Output
  datatype Action = Run | Flush | Finish | Other
  datatype Code = Ok | RunOk | FlushOk | FinishOk | StreamEnd | SequenceError | ParamError

  const UNUSED_AT_END := 19
  const OVERSHOOT := 34

  /** The block being filled holds the runs written, one more run is pending. */
  ghost predicate Filling(block: seq<Byte>, runs: seq<RunLength.Run>, ch: nat, len: nat, inUse: seq<bool>, crc: Crc, rule: CrcRule) {
    && RunsOk(runs) && block == Pairs(runs) && PendingOk(ch, len) && Follows(runs, ch)
    && UsesAll(inUse, block) && crc == CrcOf(rule, Expand(runs))
  }

  lemma FillingStart(inUse: seq<bool>, crc: Crc, rule: CrcRule, ch: nat, len: nat)
    requires |inUse| == 256 && PendingOk(ch, len) && crc == rule.start
    ensures Filling([], [], ch, len, inUse, crc, rule)
  {
  }

  lemma FillingSize(block: seq<Byte>, runs: seq<RunLength.Run>, ch: nat, len: nat, inUse: seq<bool>, crc: Crc, rule: CrcRule)
    requires Filling(block, runs, ch, len, inUse, crc, rule)
    ensures |inUse| == 256 && PendingOk(ch, len) && UsesAll(inUse, block) && crc == CrcOf(rule, Expand(runs))
  {
  }

  /** A written run leaves another one pending. */
  lemma FillingPair(block: seq<Byte>, runs: seq<RunLength.Run>, ch: Byte, len: nat, inUse: seq<bool>, crc: Crc, rule: CrcRule,
                    next: nat, nextLen: nat, inUse': seq<bool>, crc': Crc)
    requires Filling(block, runs, ch, len, inUse, crc, rule) && PendingOk(next, nextLen) && 1 <= len <= LONGEST_RUN
    requires next != ch || len == LONGEST_RUN
    requires UsesAll(inUse', block + Pair(RunLength.Run(ch, len)))
    requires crc' == CrcOf(rule, Expand(runs) + Times(ch, len))
    ensures Filling(block + Pair(RunLength.Run(ch, len)), runs + [RunLength.Run(ch, len)], next, nextLen, inUse', crc', rule)
    ensures Expand(runs + [RunLength.Run(ch, len)]) == Expand(runs) + PendingText(ch, len)
  {
    WritePending(runs, ch, len, next);
  }

  lemma OneOfIt(ch: Byte)
    ensures Times(ch, 1) == [ch] && Pair(RunLength.Run(ch, 1)) == [ch]
  {
  }

  lemma FillingGrows(block: seq<Byte>, runs: seq<RunLength.Run>, ch: nat, len: nat, inUse: seq<bool>, crc: Crc, rule: CrcRule)
    requires Filling(block, runs, ch, len, inUse, crc, rule) && 0 < len < LONGEST_RUN
    ensures Filling(block, runs, ch, len + 1, inUse, crc, rule)
  {
  }

  /** Marking a run's character, and its count if it has one. */
  lemma MarkPair(inUse: seq<bool>, block: seq<Byte>, r: RunLength.Run)
    requires UsesAll(inUse, block) && |inUse| == 256 && 1 <= r.len <= LONGEST_RUN
    ensures var one := inUse[r.ch := true];
            UsesAll(if r.len >= 4 then one[r.len - 4 := true] else one, block + Pair(r))
  {
  }

  class EState {
    const blockSize100k: nat
    const workFactor: nat
    const rule: CrcRule
    const guess: (nat, nat) -> seq<seq<Byte>>
    const arr2: array<nat>
    const w: BitWriter
    var mode: Mode
    var state: Phase
    var avail_in_expect: nat
    var state_in_ch: nat
    var state_in_len: nat
    var nblock: nat
    var inUse: seq<bool>
    var state_out_pos: nat
    var blockNo: nat
    var blockCRC: Crc
    var combinedCRC: Crc
    ghost var runs: seq<RunLength.Run>
    ghost var blocks: seq<seq<Byte>>
    ghost var es: seq<Encoding>
    ghost var consumed: seq<Byte>
    ghost var taken: seq<Byte>
    ghost var finished: bool

    /** A new stream, with its first block empty. */
    constructor (size: nat, work: nat, crcRule: CrcRule, tables: (nat, nat) -> seq<seq<Byte>>)
      requires 1 <= size <= 9 && work <= 250 && forall n, a :: Shaped(tables(n, a), GroupCount(n), a)
      ensures Between() && mode == Running && fresh(arr2) && fresh(w)
      ensures consumed == [] && Emitted() == [] && blockSize100k == size && rule == crcRule
      ensures workFactor == if work == 0 then 30 else work
    {
      blockSize100k, rule, guess := size, crcRule, tables;
      workFactor := if work == 0 then 30 else work;
      arr2 := new nat[BLOCK_UNIT * size + OVERSHOOT](_ => 0);
      w := new BitWriter();
      mode, state, avail_in_expect := Running, Input, 0;
      state_in_ch, state_in_len := NO_CHAR, 0;
      nblock, inUse, state_out_pos, blockNo := 0, seq(256, i => false), 0, 1;
      blockCRC, combinedCRC := crcRule.start, [0, 0, 0, 0];
      runs, blocks, es, consumed, taken, finished := [], [], [], [], [], false;
      new;
      NothingYet();
    }

    lemma NothingYet()
      requires Sized() && mode == Running && state == Input && avail_in_expect == 0 && state_in_ch == NO_CHAR && state_in_len == 0
      requires nblock == 0 && inUse == seq(256, i => false) && state_out_pos == 0 && blockNo == 1
      requires blockCRC == rule.start && combinedCRC == [0, 0, 0, 0] && runs == [] && blocks == [] && es == []
      requires consumed == [] && taken == [] && !finished && w.Valid() && w.zbits == [] && w.Contents() == []
      ensures Valid() && Emitted() == []
    {
      FillingStart(inUse, blockCRC, rule, NO_CHAR, 0);
      assert Block() == [];
    }

    function NblockMax(): nat
      requires 1 <= blockSize100k
    {
      BLOCK_UNIT * blockSize100k - UNUSED_AT_END
    }

    ghost predicate Sized() {
      && 1 <= blockSize100k <= 9 && arr2.Length == BLOCK_UNIT * blockSize100k + OVERSHOOT
      && forall n, a :: Shaped(guess(n, a), GroupCount(n), a)
    }

    /** The block being filled, or the one last compressed. */
    ghost function Block(): seq<Byte>
      requires nblock <= 4 * arr2.Length
      reads this`nblock, arr2
    {
      Bytes(arr2[..], nblock)
    }

    ghost predicate Gathering()
      reads this`nblock, this`runs, this`state_in_ch, this`state_in_len, this`inUse, this`blockCRC, arr2
    {
      nblock <= 4 * arr2.Length && Filling(Block(), runs, state_in_ch, state_in_len, inUse, blockCRC, rule)
    }

    /** Everything taken from the caller is in the blocks, in the runs written, or in the pending run. */
    ghost predicate Accounted()
      reads this`state_in_ch, this`state_in_len, this`consumed, this`blocks, this`es, this`runs, this`combinedCRC
    {
      && PendingOk(state_in_ch, state_in_len)
      && consumed == TextsOf(blocks) + Expand(runs) + PendingText(state_in_ch, state_in_len)
      && AllEncode(blocks, es, blockSize100k, rule) && combinedCRC == Joined(rule, blocks)
      && forall i :: 0 <= i < |blocks| ==> |blocks[i]| <= BLOCK_UNIT * blockSize100k - 10
    }

    /** The bytes taken and the bits held by the writer are the stream so far. */
    ghost predicate Written()
      requires AllEncode(blocks, es, blockSize100k, rule)
      reads this`state_out_pos, this`blockNo, this`state, this`blocks, this`es, this`finished, this`taken, w
    {
      && w.Valid() && state_out_pos <= |w.zbits| && blockNo >= 1 && (blockNo == 1 && state == Input ==> blocks == [])
      && if finished then Finished(BytesToBits(taken + w.zbits), blocks, es, blockSize100k, rule)
         else BytesToBits(taken) + w.Contents() == OpenBits(blockNo > 1 || state == Output, blocks, es, blockSize100k, rule)
    }

    ghost predicate Valid()
      reads this, w, arr2
    {
      && Sized() && Accounted() && Written() && state_out_pos <= |w.zbits|
      && (state == Input ==> ReadyForInput())
      && (state == Output ==> runs == [] && (state_in_ch == NO_CHAR ==> finished || mode == Flushing))
      && (finished ==> state == Output && state_in_ch == NO_CHAR && avail_in_expect == 0 && (mode == Finishing || mode == Idle))
      && (mode == Idle ==> finished && state_out_pos == |w.zbits|)
    }

    ghost predicate ReadyForInput()
      requires Sized()
      reads this`nblock, this`runs, this`state_in_ch, this`state_in_len, this`inUse, this`blockCRC, this`state_out_pos,
        this`finished, w, arr2
    {
      && Gathering() && nblock < NblockMax() && w.zbits == [] && state_out_pos == 0 && !finished
      && (state_in_ch == NO_CHAR ==> runs == [])
    }

    /** The bytes handed out so far. */
    ghost function Emitted(): seq<Byte>
      requires state_out_pos <= |w.zbits|
      reads this, w
    {
      taken + w.zbits[..state_out_pos]
    }

    method PutByte(c: Byte)
      requires Sized() && nblock < BLOCK_UNIT * blockSize100k
      modifies this`nblock, arr2
      ensures nblock == old(nblock) + 1 && Block() == old(Block()) + [c]
    {
      ghost var was := Bytes(arr2[..], nblock + 1);
      BytesPrefix(arr2[..], nblock);
      SetByte(arr2, nblock, c, nblock + 1);
      assert was[nblock := c] == was[..nblock] + [c];
      nblock := nblock + 1;
    }

    method PutCopies(c: Byte, n: nat)
      requires Sized() && nblock + n <= BLOCK_UNIT * blockSize100k
      modifies this`nblock, arr2
      ensures nblock == old(nblock) + n && Block() == old(Block()) + Times(c, n)
    {
      var i := 0;
      ghost var was := Block();
      assert was + Times(c, 0) == was;
      while i < n
        invariant i <= n && nblock == old(nblock) + i && Block() == was + Times(c, i)
      {
        PutByte(c);
        assert was + Times(c, i) + [c] == was + Times(c, i + 1);
        i := i + 1;
      }
    }

    /** Counts the pending run into the block's checksum. */
    method CrcOfRun()
      requires state_in_ch < 256 && blockCRC == CrcOf(rule, Expand(runs))
      modifies this`blockCRC
      ensures blockCRC == CrcOf(rule, Expand(runs) + Times(state_in_ch, state_in_len))
    {
      ghost var s := Expand(runs);
      var i := 0;
      assert s + Times(state_in_ch, 0) == s;
      while i < state_in_len
        invariant i <= state_in_len && blockCRC == CrcOf(rule, s + Times(state_in_ch, i))
      {
        CrcAppend(rule, s + Times(state_in_ch, i), state_in_ch);
        assert s + Times(state_in_ch, i) + [state_in_ch] == s + Times(state_in_ch, i + 1);
        blockCRC := (rule.step)(blockCRC, state_in_ch);
        i := i + 1;
      }
    }

    /** Writes the pending run to the block; the caller then sets up the next one. */
    method AddPairToBlock(ghost next: nat, ghost nextLen: nat)
      requires Sized() && Gathering() && state_in_ch < 256 && nblock + 5 <= BLOCK_UNIT * blockSize100k
      requires PendingOk(next, nextLen) && (next != state_in_ch || state_in_len == LONGEST_RUN)
      modifies this`nblock, this`inUse, this`blockCRC, this`runs, arr2
      ensures old(nblock) < nblock <= old(nblock) + 5 && nblock <= 4 * arr2.Length
      ensures Filling(Block(), runs, next, nextLen, inUse, blockCRC, rule)
      ensures Expand(runs) == old(Expand(runs)) + PendingText(state_in_ch, state_in_len)
    {
      hide UsesAll, Filling, Bytes;
      ghost var was, run, rs, use, crc := Block(), RunLength.Run(state_in_ch, state_in_len), runs, inUse, blockCRC;
      FillingSize(was, runs, state_in_ch, state_in_len, inUse, blockCRC, rule);
      MarkPair(inUse, was, run);
      CrcOfRun();
      inUse := inUse[state_in_ch := true];
      if state_in_len < 4 {
        PutCopies(state_in_ch, state_in_len);
      } else {
        inUse := inUse[state_in_len - 4 := true];
        PutCopies(state_in_ch, 4);
        PutByte(state_in_len - 4);
        AppendParts(was, Times(state_in_ch, 4), [state_in_len - 4]);
      }
      FillingPair(was, rs, state_in_ch, state_in_len, use, crc, rule, next, nextLen, inUse, blockCRC);
      runs := runs + [run];
    }

    /** The common case of a pending run of one. */
    method AddSingle(ghost next: Byte)
      requires Sized() && Gathering() && state_in_ch < 256 && nblock < BLOCK_UNIT * blockSize100k
      requires next != state_in_ch && state_in_len == 1
      modifies this`nblock, this`inUse, this`blockCRC, this`runs, arr2
      ensures nblock == old(nblock) + 1 && nblock <= 4 * arr2.Length
      ensures Filling(Block(), runs, next, 1, inUse, blockCRC, rule)
      ensures Expand(runs) == old(Expand(runs)) + PendingText(state_in_ch, state_in_len)
    {
      hide UsesAll, Filling, Bytes, Pair, Times, Expand, CrcOf;
      ghost var was, run, rs, use, crc := Block(), RunLength.Run(state_in_ch, 1), runs, inUse, blockCRC;
      FillingSize(was, runs, state_in_ch, 1, inUse, blockCRC, rule);
      MarkPair(inUse, was, run);
      CrcAppend(rule, Expand(runs), state_in_ch);
      OneOfIt(state_in_ch);
      blockCRC := (rule.step)(blockCRC, state_in_ch);
      inUse := inUse[state_in_ch := true];
      PutByte(state_in_ch);
      FillingPair(was, rs, state_in_ch, 1, use, crc, rule, next, 1, inUse, blockCRC);
      runs := runs + [run];
    }

    /** Ends the pending run. */
    method FlushRL()
      requires Sized() && Gathering() && nblock + 5 <= BLOCK_UNIT * blockSize100k
      modifies this`nblock, this`inUse, this`blockCRC, this`runs, this`state_in_ch, this`state_in_len, arr2
      ensures Gathering() && state_in_ch == NO_CHAR && state_in_len == 0 && nblock <= old(nblock) + 5
      ensures Expand(runs) == old(Expand(runs) + PendingText(state_in_ch, state_in_len))
      ensures old(state_in_ch) == NO_CHAR ==> nblock == old(nblock)
    {
      hide UsesAll, Filling, Bytes, Expand;
      FillingSize(Block(), runs, state_in_ch, state_in_len, inUse, blockCRC, rule);
      if state_in_ch < 256 {
        AddPairToBlock(NO_CHAR, 0);
      }
      state_in_ch, state_in_len := NO_CHAR, 0;
    }

    /** Takes one character into the pending run, or starts a new run with it. */
    method AddCharToBlock(c: Byte)
      requires Sized() && Gathering() && nblock + 5 <= BLOCK_UNIT * blockSize100k
      requires state_in_ch == NO_CHAR ==> runs == []
      modifies this`nblock, this`inUse, this`blockCRC, this`runs, this`state_in_ch, this`state_in_len, arr2
      ensures Gathering() && old(nblock) <= nblock <= old(nblock) + 5 && state_in_ch < 256
      ensures Expand(runs) + PendingText(state_in_ch, state_in_len)
              == old(Expand(runs) + PendingText(state_in_ch, state_in_len)) + [c]
    {
      hide UsesAll, Filling, Bytes;
      FillingSize(Block(), runs, state_in_ch, state_in_len, inUse, blockCRC, rule);
      OneMorePending(state_in_ch, state_in_len, c);
      if c != state_in_ch && state_in_len == 1 {
        AddSingle(c);
        state_in_ch := c;
      } else if c != state_in_ch || state_in_len == LONGEST_RUN {
        if state_in_ch < 256 {
          AddPairToBlock(c, 1);
        } else {
          FillingFirst(Block(), runs, inUse, blockCRC, rule, c);
        }
        state_in_ch := c;
        state_in_len := 1;
      } else {
        FillingGrows(Block(), runs, state_in_ch, state_in_len, inUse, blockCRC, rule);
        AppendParts(Expand(runs), PendingText(state_in_ch, state_in_len), [c]);
        state_in_len := state_in_len + 1;
      }
    }

    /** The block's bytes, read out of the words. */
    method ReadBlock() returns (block: seq<Byte>)
      requires nblock <= 4 * arr2.Length
      ensures block == Block()
    {
      block := [];
      while |block| < nblock
        invariant |block| <= nblock && block == Block()[..|block|]
      {
        var c := GetByte(arr2, |block|);
        assert c == Block()[|block|];
        block := block + [c];
      }
    }

    /** The stream header, before anything else. */
    method StartStream()
      requires w.Valid() && blockNo >= 1 && 1 <= blockSize100k <= 9
      modifies w
      ensures w.Valid()
      ensures w.Contents() == old(w.Contents()) + if blockNo == 1 then BytesToBits(HeaderBytes(blockSize100k)) else []
    {
      if blockNo == 1 {
        PutBytes(w, HeaderBytes(blockSize100k));
      } else {
        NoBits(w.Contents());
      }
    }

    /** Adds the gathered block to the stream. */
    method AddBlock(block: seq<Byte>)
      requires Sized() && w.Valid() && AllEncode(blocks, es, blockSize100k, rule)
      requires 0 < nblock <= BLOCK_UNIT * blockSize100k && block == Block() && Unrle(block).Text? && UsesAll(inUse, block)
      requires |inUse| == 256 && blockCRC == CrcOf(rule, TextOf(block)) && combinedCRC == RunLength.Joined(rule, blocks)
      requires BytesToBits(taken) + w.Contents() == OpenBits(true, blocks, es, blockSize100k, rule)
      modifies this`blocks, this`es, this`combinedCRC, w, arr2
      ensures w.Valid() && AllEncode(blocks, es, blockSize100k, rule) && blocks == old(blocks) + [block]
      ensures TextsOf(blocks) == old(TextsOf(blocks)) + TextOf(block) && combinedCRC == RunLength.Joined(rule, blocks)
      ensures BytesToBits(taken) + w.Contents() == OpenBits(true, blocks, es, blockSize100k, rule)
    {
      hide Filling, Bytes, Encodes, AllEncode, OpenBits, BitWriter.Contents, BitWriter.Valid, TextsOf,
        RunLength.Joined, BlockBits, UsesAll, BytesToBits, CrcOf, Unrle;
      ghost var open := w.Contents();
      combinedCRC := (rule.join)(combinedCRC, (rule.finish)(blockCRC));
      ghost var e := BlockCodec.CompressBlock(w, arr2, block, inUse, (rule.finish)(blockCRC), blockSize100k, guess, workFactor);
      OneMoreBlock(blocks, es, blockSize100k, rule, block, e);
      AppendParts(BytesToBits(taken), open, BlockBits(block, e, blockSize100k));
      blocks, es := blocks + [block], es + [e];
    }

    /** Compresses what has been gathered, nothing if the block is empty. */
    method CompressGathered()
      requires Sized() && Accounted() && Written() && Gathering() && state == Input && !finished
      requires nblock <= BLOCK_UNIT * blockSize100k - 10 && state_out_pos == 0
      modifies this`blocks, this`es, this`runs, this`combinedCRC, this`state, w, arr2
      ensures Accounted() && Written() && runs == [] && state == Output
      ensures nblock == old(nblock) && if nblock == 0 then blocks == old(blocks) else OneMore(old(blocks), blocks, nblock)
    {
      hide OneMore, Filling, Bytes, Encodes, AllEncode, OpenBits, BitWriter.Contents, BitWriter.Valid, TextsOf,
        RunLength.Joined, UsesAll, BytesToBits, CrcOf, Unrle, TextOf, Expand;
      ghost var was, blocks0 := w.Contents(), blocks;
      var block := ReadBlock();
      StartStream();
      OpenStarts(blockNo, blocks, es, blockSize100k, rule, BytesToBits(taken), was);
      FilledBlock(block, runs, state_in_ch, state_in_len, inUse, blockCRC, rule);
      FillingSize(block, runs, state_in_ch, state_in_len, inUse, blockCRC, rule);
      if nblock > 0 {
        AddBlock(block);
        OneAdded(blocks0, block);
      }
      AccountBlock(TextsOf(old(blocks)), Expand(runs), PendingText(state_in_ch, state_in_len));
      runs := [];
      state := Output;
    }

    /** Ends the stream: trailer, checksum of all blocks, padding. */
    method EndStream()
      requires Sized() && Accounted() && Written() && state == Output && !finished && runs == [] && state_out_pos == 0
      modifies this`finished, w
      ensures finished && Accounted() && Written() && w.zbits != []
    {
      hide AllEncode, OpenBits, TextsOf, RunLength.Joined;
      ghost var was := w.Contents();
      PutBytes(w, END_MAGIC);
      PutBytes(w, combinedCRC);
      ghost var all := w.Contents();
      w.FinishWrite();
      ghost var pad :| |pad| < 8 && BytesToBits(w.zbits) == all + pad;
      SomeBytes(w.zbits, was, all + pad);
      BytesToBitsConcat(taken, w.zbits);
      EndsFinished(BytesToBits(taken), was, blocks, es, blockSize100k, rule, all, pad);
      finished := true;
    }

    /** More bits than none make a byte. */
    lemma SomeBytes(z: seq<Byte>, was: Bits, all: Bits)
      requires BytesToBits(z) == all && |all| > |was|
      ensures z != []
    {
    }

    // ---- Moving bytes in and out ----

    /** A fresh block, once all output of the last one has been taken. */
    method PrepareNewBlock()
      requires Valid() && state == Output && !finished && state_out_pos == |w.zbits|
      modifies this, w
      ensures Valid() && state == Input && runs == [] && nblock == 0
      ensures mode == old(mode) && avail_in_expect == old(avail_in_expect) && consumed == old(consumed)
      ensures state_in_ch == old(state_in_ch) && Emitted() == old(Emitted()) && blocks == old(blocks) && es == old(es)
    {
      hide *;
      WriterReady();
      nblock, state_out_pos := 0, 0;
      blockCRC := rule.start;
      inUse := seq(256, i => false);
      blockNo := blockNo + 1;
      taken := taken + w.zbits;
      w.Restart();
      state := Input;
      NewBlockKeeps();
    }

    lemma WriterReady()
      requires Valid()
      ensures w.Valid()
    {
    }

    /** Forgetting the bytes that have all been handed out loses nothing. */
    twostate lemma NewBlockKeeps()
      requires old(Valid()) && old(state == Output && !finished && state_out_pos == |w.zbits|) && state == Input
      requires nblock == 0 && state_out_pos == 0 && blockCRC == rule.start && inUse == seq(256, i => false) && blockNo == old(blockNo) + 1
      requires taken == old(taken + w.zbits) && w.zbits == [] && w.Valid() && old(w.Contents()) == BytesToBits(old(w.zbits)) + w.Contents()
      requires unchanged(this`mode, this`avail_in_expect, this`state_in_ch, this`state_in_len, this`combinedCRC, this`runs,
                         this`blocks, this`es, this`consumed, this`finished)
      ensures Valid() && runs == [] && Emitted() == old(Emitted())
    {
      hide AllEncode, OpenBits, TextsOf, RunLength.Joined, BitWriter.Contents, BitWriter.Valid, UsesAll, BytesToBits,
        Filling, Expand, PendingText, Finished, CrcOf;
      BytesToBitsConcat(old(taken), old(w.zbits));
      AppendParts(BytesToBits(old(taken)), BytesToBits(old(w.zbits)), w.Contents());
      FillingStart(inUse, blockCRC, rule, state_in_ch, state_in_len);
      assert Block() == [];
    }

    /** Takes input until the block is full, the input ends, or what was announced has been taken. */
    method CopyInputUntilStop(strm: Strm) returns (progress: bool)
      requires Valid() && state == Input && (mode != Running ==> avail_in_expect == |strm.input|)
      modifies this, arr2, strm`input
      ensures Sized() && Accounted() && Written() && Gathering() && w.zbits == [] && state_out_pos == 0 && !finished && state == Input
      ensures nblock < NblockMax() + 5 && (nblock >= NblockMax() ==> state_in_ch < 256 && |strm.input| < |old(strm.input)|)
      ensures state_in_ch == NO_CHAR ==> runs == []
      ensures nblock < NblockMax() ==> strm.input == []
      ensures Taken(old(consumed), old(strm.input), consumed, strm.input)
      ensures progress == (|strm.input| < |old(strm.input)|)
      ensures mode == old(mode) && Emitted() == old(Emitted()) && (mode != Running ==> avail_in_expect == |strm.input|)
      ensures blocks == old(blocks) && es == old(es) && (state_in_ch == NO_CHAR ==> old(state_in_ch) == NO_CHAR)
      ensures !progress ==> nblock == old(nblock) && state_in_ch == old(state_in_ch) && runs == old(runs)
    {
      hide Shaped, Sized, GroupCount, CrcOf, UsesAll, AllEncode, OpenBits, TextsOf, RunLength.Joined,
        BitWriter.Contents, BitWriter.Valid, BytesToBits, Filling, Expand, PendingText, Taken;
      progress := false;
      TakenNothing(consumed, strm.input);
      while true
        invariant Sized() && Accounted() && Written() && Gathering() && w.zbits == [] && state_out_pos == 0 && !finished && state == Input
        invariant nblock < NblockMax() + 5 && (nblock >= NblockMax() ==> state_in_ch < 256 && progress)
        invariant state_in_ch == NO_CHAR ==> runs == []
        invariant Taken(old(consumed), old(strm.input), consumed, strm.input) && |strm.input| <= |old(strm.input)|
        invariant progress == (|strm.input| < |old(strm.input)|)
        invariant mode == old(mode) && Emitted() == old(Emitted()) && (mode != Running ==> avail_in_expect == |strm.input|)
        invariant blocks == old(blocks) && es == old(es) && (state_in_ch == NO_CHAR ==> old(state_in_ch) == NO_CHAR)
        invariant !progress ==> nblock == old(nblock) && state_in_ch == old(state_in_ch) && runs == old(runs)
        decreases |strm.input|
      {
        if nblock >= NblockMax() { break; }
        if |strm.input| == 0 { break; }
        if mode != Running && avail_in_expect == 0 { break; }
        progress := true;
        ghost var c0, i0 := consumed, strm.input;
        TakeChar(strm);
        TakenTwice(old(consumed), old(strm.input), c0, i0, consumed, strm.input);
      }
    }

    /** Takes one character of the input. */
    method TakeChar(strm: Strm)
      requires Sized() && Accounted() && Written() && Gathering() && !finished && state == Input
      requires nblock < NblockMax() && strm.input != [] && (state_in_ch == NO_CHAR ==> runs == [])
      requires mode != Running ==> avail_in_expect == |strm.input|
      modifies this`nblock, this`inUse, this`blockCRC, this`runs, this`state_in_ch, this`state_in_len, this`consumed,
        this`avail_in_expect, arr2, strm`input
      ensures Accounted() && Written() && Gathering() && nblock < NblockMax() + 5 && state_in_ch < 256
      ensures Taken(old(consumed), old(strm.input), consumed, strm.input) && |strm.input| == |old(strm.input)| - 1
      ensures mode != Running ==> avail_in_expect == |strm.input|
    {
      hide *;
      Reading();
      var c := strm.input[0];
      AddCharToBlock(c);
      consumed := consumed + [c];
      strm.input := strm.input[1..];
      if mode != Running {
        avail_in_expect := avail_in_expect - 1;
      }
      CharTaken(c);
      TakenOne(old(consumed), old(strm.input));
    }

    lemma Reading()
      requires Sized() && nblock < NblockMax()
      ensures nblock + 5 <= BLOCK_UNIT * blockSize100k
    {
    }

    /** A character taken is in the pending run. */
    twostate lemma CharTaken(c: Byte)
      requires old(Sized() && Accounted() && Written()) && Gathering() && consumed == old(consumed) + [c]
      requires Expand(runs) + PendingText(state_in_ch, state_in_len) == old(Expand(runs) + PendingText(state_in_ch, state_in_len)) + [c]
      requires unchanged(this`blocks, this`es, this`combinedCRC, this`finished, this`taken, this`state, this`blockNo, this`state_out_pos, w)
      ensures Accounted() && Written()
    {
      hide AllEncode, OpenBits, TextsOf, RunLength.Joined, BitWriter.Contents, BitWriter.Valid, UsesAll, BytesToBits,
        Filling, Expand, PendingText;
      GatheringParts();
      AppendParts(TextsOf(blocks), old(Expand(runs)), old(PendingText(state_in_ch, state_in_len)));
      AppendParts(TextsOf(blocks), Expand(runs), PendingText(state_in_ch, state_in_len));
      AppendParts(TextsOf(blocks), old(Expand(runs) + PendingText(state_in_ch, state_in_len)), [c]);
    }

    lemma GatheringParts()
      requires Gathering()
      ensures PendingOk(state_in_ch, state_in_len)
    {
    }

    /** Hands out bytes until they or the room for them run out. */
    method CopyOutputUntilStop(strm: Strm) returns (progress: bool)
      requires state_out_pos <= |w.zbits|
      modifies this`state_out_pos, strm`availOut, strm`output
      ensures old(state_out_pos) <= state_out_pos <= |w.zbits|
      ensures strm.output == old(strm.output) + w.zbits[old(state_out_pos)..state_out_pos]
      ensures strm.availOut + state_out_pos == old(strm.availOut + state_out_pos)
      ensures state_out_pos == |w.zbits| || strm.availOut == 0
      ensures progress == (state_out_pos > old(state_out_pos))
    {
      progress := false;
      assert strm.output + [] == strm.output;
      while true
        invariant old(state_out_pos) <= state_out_pos <= |w.zbits|
        invariant strm.output == old(strm.output) + w.zbits[old(state_out_pos)..state_out_pos]
        invariant strm.availOut + state_out_pos == old(strm.availOut + state_out_pos)
        invariant progress == (state_out_pos > old(state_out_pos))
        decreases strm.availOut
      {
        if strm.availOut == 0 { break; }
        if state_out_pos >= |w.zbits| { break; }
        progress := true;
        strm.output := strm.output + [w.zbits[state_out_pos]];
        state_out_pos := state_out_pos + 1;
        strm.availOut := strm.availOut - 1;
      }
    }

    // ---- The two phases, and calls from outside ----

    function IsEmptyRL(): bool
      reads this
    {
      !(state_in_ch < 256 && state_in_len > 0)
    }

    /** Hands out what is waiting, and makes room for another block once all of it is gone. */
    method OutputPhase(strm: Strm) returns (progress: bool, stop: bool)
      requires Valid() && state == Output && mode != Idle
      modifies this, w, strm`availOut, strm`output
      ensures Valid() && mode == old(mode) && avail_in_expect == old(avail_in_expect) && state_in_ch == old(state_in_ch)
      ensures consumed == old(consumed) && blocks == old(blocks) && es == old(es) && finished == old(finished)
      ensures Passed(old(strm.output), old(Emitted()), strm.output, Emitted())
      ensures strm.availOut + |strm.output| == old(strm.availOut + |strm.output|)
      ensures progress == (|strm.output| > |old(strm.output)|)
      ensures !stop ==> state == Input && !(mode != Running && avail_in_expect == 0 && state_in_ch == NO_CHAR)
      ensures stop && state == Output ==>
                if state_out_pos < |w.zbits| then strm.availOut == 0 else finished && avail_in_expect == 0 && IsEmptyRL()
      ensures old(state_out_pos < |w.zbits|) ==> (progress <==> old(strm.availOut) > 0) && (!progress ==> stop && state_out_pos < |w.zbits|)
      ensures old(state_out_pos == |w.zbits|) ==> !progress && (stop && state == Output ==> old(finished))
      ensures state == Input ==> state_out_pos == |w.zbits|
      ensures stop && state == Input ==> mode == Flushing && avail_in_expect == 0 && state_in_ch == NO_CHAR && runs == []
    {
      hide Accounted, Filling, BitWriter.Contents, BitWriter.Valid, Finished, OpenBits, AllEncode;
      progress := CopyOutputUntilStop(strm);
      PassedOutput(taken, w.zbits, old(state_out_pos), state_out_pos, old(strm.output));
      AccountedPending();
      if state_out_pos < |w.zbits| { return progress, true; }
      if mode == Finishing && avail_in_expect == 0 && IsEmptyRL() { return progress, true; }
      PrepareNewBlock();
      AccountedPending();
      stop := mode == Flushing && avail_in_expect == 0 && IsEmptyRL();
    }

    lemma AccountedPending()
      requires Accounted()
      ensures PendingOk(state_in_ch, state_in_len) && AllEncode(blocks, es, blockSize100k, rule)
    {
    }

    /** Takes input, and compresses the block when it is full or its end has been asked for. */
    method InputPhase(strm: Strm) returns (progress: bool, stop: bool)
      requires Valid() && state == Input && mode != Idle && (mode != Running ==> avail_in_expect == |strm.input|)
      modifies this, w, arr2, strm`input
      ensures Valid() && mode == old(mode) && (mode != Running ==> avail_in_expect == |strm.input|)
      ensures Taken(old(consumed), old(strm.input), consumed, strm.input)
      ensures Emitted() == old(Emitted()) && progress == (|strm.input| < |old(strm.input)|)
      ensures !stop ==> state == Output
      ensures !stop ==> |strm.input| < |old(strm.input)| || (mode != Running && avail_in_expect == 0 && state_in_ch == NO_CHAR)
      ensures stop ==> state == Input && mode == Running && strm.input == [] && state_out_pos == |w.zbits|
      ensures old(strm.input) != [] ==> progress
      ensures mode == Finishing && !progress ==> finished && state_out_pos < |w.zbits|
      ensures Grown(old(blocks), blocks, LeastFull(), AllIn()) && (old(AllIn()) ==> blocks == old(blocks) && AllIn())
    {
      hide Filling, BitWriter.Contents, BitWriter.Valid, Finished, OpenBits, AllEncode, TextsOf, Expand, Bytes,
        RunLength.Joined, BytesToBits, PendingText, CrcOf, UsesAll, Taken;
      if AllIn() { NothingGathered(); }
      progress := CopyInputUntilStop(strm);
      stop := false;
      if mode != Running && avail_in_expect == 0 {
        CloseLast();
      } else if nblock >= NblockMax() {
        CompressGathered();
      } else {
        stop := true;
      }
    }

    /** The end of what was announced: the pending run and the block are done, and the stream if it is to be finished. */
    method CloseLast()
      requires Sized() && Accounted() && Written() && Gathering() && state_out_pos == 0 && !finished && state == Input
      requires nblock < NblockMax() + 5 && (mode == Flushing || mode == Finishing)
      modifies this`nblock, this`inUse, this`blockCRC, this`runs, this`state_in_ch, this`state_in_len, this`blocks, this`es,
        this`combinedCRC, this`state, this`finished, w, arr2
      ensures Accounted() && Written() && state == Output && runs == [] && state_in_ch == NO_CHAR
      ensures finished == (mode == Finishing) && (finished ==> w.zbits != [])
      ensures old(blocks) <= blocks && |blocks| <= |old(blocks)| + 1
      ensures old(state_in_ch == NO_CHAR && nblock == 0) ==> blocks == old(blocks)
    {
      hide Filling, BitWriter.Contents, BitWriter.Valid, Finished, OpenBits, AllEncode, TextsOf, Expand, Bytes,
        RunLength.Joined, BytesToBits, PendingText, CrcOf, UsesAll;
      Room();
      label before:
      FlushRL();
      RunFlushed@before();
      CompressGathered();
      if mode == Finishing {
        EndStream();
      }
    }

    /** A block is full from this size on. */
    ghost function LeastFull(): int {
      100000 * blockSize100k - 19
    }

    lemma NothingGathered()
      requires Valid() && state == Input && state_in_ch == NO_CHAR
      ensures nblock == 0
    {
      assert |Block()| == nblock;
    }

    lemma Room()
      requires Sized() && nblock < NblockMax() + 5
      ensures nblock + 5 <= BLOCK_UNIT * blockSize100k
    {
    }

    /** The pending run written to the block, nothing is pending. */
    twostate lemma RunFlushed()
      requires old(Sized() && Accounted() && Written()) && Gathering() && state_in_ch == NO_CHAR && state_in_len == 0
      requires Expand(runs) == old(Expand(runs) + PendingText(state_in_ch, state_in_len))
      requires unchanged(this`blocks, this`es, this`combinedCRC, this`finished, this`taken, this`state, this`blockNo, this`state_out_pos,
                         this`consumed, w)
      ensures Accounted() && Written()
    {
      hide AllEncode, OpenBits, TextsOf, RunLength.Joined, BitWriter.Contents, BitWriter.Valid, UsesAll, BytesToBits,
        Filling, Expand;
      GatheringParts();
      AppendParts(TextsOf(blocks), old(Expand(runs)), old(PendingText(state_in_ch, state_in_len)));
      assert TextsOf(blocks) + Expand(runs) + PendingText(NO_CHAR, 0) == TextsOf(blocks) + Expand(runs);
    }

    /** Nothing more is to come in, and nothing is pending. */
    predicate AllIn()
      reads this
    {
      mode != Running && avail_in_expect == 0 && state_in_ch == NO_CHAR
    }

    /** One turn: bytes handed out, then input taken. */
    method HandleTurn(strm: Strm) returns (more: bool, stop: bool)
      requires Valid() && mode != Idle && (mode != Running ==> avail_in_expect == |strm.input|)
      modifies this, w, arr2, strm
      ensures Valid() && mode == old(mode) && (mode != Running ==> avail_in_expect == |strm.input|)
      ensures Taken(old(consumed), old(strm.input), consumed, strm.input)
      ensures Passed(old(strm.output), old(Emitted()), strm.output, Emitted())
      ensures strm.availOut + |strm.output| == old(strm.availOut + |strm.output|)
      ensures |strm.input| <= |old(strm.input)| && |strm.output| >= |old(strm.output)|
      ensures more == (|strm.input| < |old(strm.input)| || |strm.output| > |old(strm.output)|)
      ensures !stop ==> state == Output && (|strm.input| < |old(strm.input)| || (AllIn() && (!old(AllIn()) || old(state) == Input)))
      ensures old(Waiting()) ==> (more <==> old(strm.availOut) > 0) && (!more ==> stop && Waiting())
      ensures !old(Waiting()) && !more ==> strm.input == [] && (mode == Finishing && !old(finished) ==> finished && Waiting())
      ensures !old(Waiting()) && !old(finished) ==> more == (old(strm.input) != [])
      ensures !stop && !more ==> AllIn()
      ensures old(finished) ==> finished
      ensures stop && Waiting() ==> strm.availOut == 0
      ensures stop && !Waiting() && mode == Running ==> strm.input == []
      ensures stop && !Waiting() && mode == Flushing ==> AllOut() && state == Input && runs == []
      ensures stop && !Waiting() && mode == Finishing ==> AllOut() && finished
      ensures Grown(old(blocks), blocks, LeastFull(), AllIn()) && (old(AllIn()) ==> blocks == old(blocks) && AllIn())
    {
      hide Accounted, ReadyForInput, Written, Passed, Taken, AllEncode, Sized;
      more, stop := false, false;
      PassedNothing(strm.output, Emitted());
      TakenNothing(consumed, strm.input);
      if state == Input { NothingWaits(); }
      if state == Output {
        more, stop := OutputPhase(strm);
        PassedLength(old(strm.output), old(Emitted()), strm.output, Emitted());
        if stop { return; }
      }
      var taken;
      taken, stop := InputPhase(strm);
      more := more || taken;
      PassedLength(old(strm.output), old(Emitted()), strm.output, Emitted());
    }

    /** Alternates between the phases for as long as there is input, room for output and something to do. */
    method HandleCompress(strm: Strm) returns (progress: bool)
      requires Valid() && mode != Idle && (mode != Running ==> avail_in_expect == |strm.input|) && (finished ==> Waiting())
      modifies this, w, arr2, strm
      ensures Valid() && mode == old(mode) && (mode != Running ==> avail_in_expect == |strm.input|)
      ensures Taken(old(consumed), old(strm.input), consumed, strm.input)
      ensures Passed(old(strm.output), old(Emitted()), strm.output, Emitted())
      ensures strm.availOut + |strm.output| == old(strm.availOut + |strm.output|)
      ensures progress == (|strm.input| < |old(strm.input)| || |strm.output| > |old(strm.output)|)
      ensures mode != Flushing ==> progress == old(CanMove(strm))
      ensures Waiting() ==> strm.availOut == 0
      ensures !progress && finished ==> Waiting()
      ensures !Waiting() && mode == Running ==> strm.input == []
      ensures !Waiting() && mode == Flushing ==> AllOut() && state == Input && runs == []
      ensures !Waiting() && mode == Finishing ==> AllOut() && finished
      ensures Grown(old(blocks), blocks, LeastFull(), AllIn())
    {
      hide Accounted, ReadyForInput, Written, Passed, Taken, AllEncode, Sized, AllOut, Grown;
      NotGrown(blocks, LeastFull(), AllIn());
      progress := false;
      ghost var first := true;
      PassedNothing(strm.output, Emitted());
      TakenNothing(consumed, strm.input);
      var stop := false;
      while !stop
        invariant Valid() && mode == old(mode) && (mode != Running ==> avail_in_expect == |strm.input|)
        invariant Taken(old(consumed), old(strm.input), consumed, strm.input) && |strm.input| <= |old(strm.input)|
        invariant Passed(old(strm.output), old(Emitted()), strm.output, Emitted())
        invariant strm.availOut + |strm.output| == old(strm.availOut + |strm.output|) && |strm.output| >= |old(strm.output)|
        invariant progress == (|strm.input| < |old(strm.input)| || |strm.output| > |old(strm.output)|)
        invariant first ==> !progress && !stop && Waiting() == old(Waiting()) && (finished ==> Waiting())
        invariant !first && old(Waiting()) ==> progress == (old(strm.availOut) > 0) && (!progress ==> stop && Waiting())
        invariant !first && !old(Waiting()) && !progress ==> old(strm.input) == [] && (mode == Finishing ==> finished && Waiting())
        invariant !first && !old(Waiting()) && progress ==> old(strm.input) != [] || (mode != Running && old(strm.availOut) > 0)
        invariant !first && !stop ==> old(Waiting() || strm.input != [] || mode != Running)
        invariant stop && Waiting() ==> strm.availOut == 0
        invariant stop && !Waiting() && mode == Running ==> strm.input == []
        invariant stop && !Waiting() && mode == Flushing ==> AllOut() && state == Input && runs == []
        invariant stop && !Waiting() && mode == Finishing ==> AllOut() && finished
        invariant Grown(old(blocks), blocks, LeastFull(), AllIn())
        decreases !stop, |strm.input|, !AllIn(), state == Input
      {
        var more;
        ghost var c0, i0, out0, em0, b0, in0 := consumed, strm.input, strm.output, Emitted(), blocks, AllIn();
        more, stop := HandleTurn(strm);
        GrownTwice(old(blocks), b0, blocks, LeastFull(), in0, AllIn());
        PassedTwice(old(strm.output), old(Emitted()), out0, em0, strm.output, Emitted());
        TakenTwice(old(consumed), old(strm.input), c0, i0, consumed, strm.input);
        progress := progress || more;
        first := false;
      }
    }

    /** Whether compressed bytes wait to be handed out. */
    ghost predicate Waiting()
      reads this`state_out_pos, w
    {
      state_out_pos < |w.zbits|
    }

    lemma NothingWaits()
      requires Valid() && state == Input
      ensures !Waiting() && !finished
    {
    }

    /** Whether bytes can move at all: out, if some wait; else in, or out after a last block has been made of what there is. */
    ghost predicate CanMove(strm: Strm)
      reads this`state_out_pos, this`mode, w, strm
    {
      if Waiting() then strm.availOut > 0 else strm.input != [] || (mode == Finishing && strm.availOut > 0)
    }

    /** All that was announced has been taken, compressed and handed out. */
    ghost predicate AllOut()
      reads this, w
    {
      avail_in_expect == 0 && IsEmptyRL() && !Waiting()
    }

    /** What holds between two calls: a finished stream that has not ended has bytes waiting. */
    ghost predicate Between()
      reads this, w, arr2
    {
      Valid() && (finished && mode != Idle ==> Waiting())
    }

    /** A call out of turn: after the end, or not what was begun, or with other input than was announced. */
    ghost predicate OutOfTurn(strm: Strm, action: Action)
      reads this`mode, this`avail_in_expect, strm`input
    {
      || mode == Idle || (mode == Flushing && action != Flush) || (mode == Finishing && action != Finish)
      || ((mode == Flushing || mode == Finishing) && avail_in_expect != |strm.input|)
    }

    /** Whether anything moves in a call that is in turn. */
    ghost predicate Moves(strm: Strm, action: Action)
      reads this`state_out_pos, w, strm
    {
      if Waiting() then strm.availOut > 0 else strm.input != [] || (action == Finish && strm.availOut > 0)
    }

    /** The mode a call that was answered with `code` leaves the stream in. */
    ghost function ModeAfter(before: Mode, action: Action, code: Code): Mode {
      match code
      case StreamEnd => Idle
      case FlushOk => Flushing
      case FinishOk => Finishing
      case SequenceError => if before == Running then Finishing else before
      case _ => Running
    }

    /**
     * One call by the user of the stream. Whatever the sequence of calls, their actions and buffers, what
     * was taken is what the blocks, the runs written and the pending run stand for; the end is
     * reported only when the last block and the trailer have been handed out in full. The code is that of the
     * program for every mode, action and buffer; a call that has not done all it was asked for has used up
     * its room.
     */
    method BzCompress(strm: Strm, action: Action) returns (code: Code)
      requires Between()
      modifies this, w, arr2, strm
      ensures Between()
      ensures Taken(old(consumed), old(strm.input), consumed, strm.input)
      ensures Passed(old(strm.output), old(Emitted()), strm.output, Emitted())
      ensures strm.availOut + |strm.output| == old(strm.availOut + |strm.output|)
      ensures code == SequenceError <==> old(OutOfTurn(strm, action) || (action == Finish && !Moves(strm, action)))
      ensures code == ParamError <==> old(mode == Running && (action == Other || (action == Action.Run && !Moves(strm, action))))
      ensures code == RunOk ==> action == Action.Run || action == Flush
      ensures code == FlushOk ==> action == Flush && strm.availOut == 0 && Waiting()
      ensures code == FinishOk ==> action == Finish && strm.availOut == 0 && Waiting()
      ensures code == StreamEnd ==>
                action == Finish && strm.input == [] && consumed == TextsOf(blocks)
                && Finished(BytesToBits(Emitted()), blocks, es, blockSize100k, rule)
      ensures code == RunOk && action == Flush ==> strm.input == [] && consumed == TextsOf(blocks) && !Waiting()
      ensures code == RunOk && action == Action.Run ==>
                (|strm.input| < |old(strm.input)| || |strm.output| > |old(strm.output)|) && if Waiting() then strm.availOut == 0 else strm.input == []
      ensures mode == ModeAfter(old(mode), action, code) && code != Ok
      ensures mode == Flushing || mode == Finishing ==> avail_in_expect == |strm.input| || old(OutOfTurn(strm, action))
      ensures code == ParamError || code == SequenceError ==> strm.output == old(strm.output) && strm.input == old(strm.input)
      ensures Grown(old(blocks), blocks, LeastFull(), action != Action.Run)
    {
      NotGrown(blocks, LeastFull(), action != Action.Run);
      hide Grown, Accounted, ReadyForInput, Written, Passed, Taken, Finished, BytesToBits, TextsOf, Sized, AllEncode, OpenBits, BitWriter.Contents,
        BitWriter.Valid;
      PassedNothing(strm.output, Emitted());
      TakenNothing(consumed, strm.input);
      if mode == Idle { return SequenceError; }
      if mode == Running {
        if action == Action.Run {
          var progress := HandleCompress(strm);
          GrownMost(old(blocks), blocks, LeastFull(), AllIn(), false);
          PassedLength(old(strm.output), old(Emitted()), strm.output, Emitted());
          TakenLength(old(consumed), old(strm.input), consumed, strm.input);
          return if progress then RunOk else ParamError;
        } else if action == Flush {
          avail_in_expect := |strm.input|;
          mode := Flushing;
        } else if action == Finish {
          avail_in_expect := |strm.input|;
          mode := Finishing;
        } else {
          return ParamError;
        }
      }
      if mode == Flushing {
        if action != Flush { return SequenceError; }
        if avail_in_expect != |strm.input| { return SequenceError; }
        code := FlushOn(strm);
      } else {
        if action != Finish { return SequenceError; }
        if avail_in_expect != |strm.input| { return SequenceError; }
        code := FinishOn(strm);
      }
    }

    /** A call that goes on with a flush. */
    method FlushOn(strm: Strm) returns (code: Code)
      requires Valid() && mode == Flushing && avail_in_expect == |strm.input|
      modifies this, w, arr2, strm
      ensures Between() && Taken(old(consumed), old(strm.input), consumed, strm.input)
      ensures Passed(old(strm.output), old(Emitted()), strm.output, Emitted())
      ensures strm.availOut + |strm.output| == old(strm.availOut + |strm.output|)
      ensures code == RunOk || code == FlushOk
      ensures code == FlushOk ==> mode == Flushing && avail_in_expect == |strm.input| && strm.availOut == 0 && Waiting()
      ensures code == RunOk ==> mode == Running && strm.input == [] && consumed == TextsOf(blocks) && !Waiting()
      ensures Grown(old(blocks), blocks, LeastFull(), true)
    {
      hide Grown, Accounted, ReadyForInput, Written, Passed, Taken, Finished, BytesToBits, TextsOf;
      var progress := HandleCompress(strm);
      GrownMost(old(blocks), blocks, LeastFull(), AllIn(), true);
      if avail_in_expect > 0 || !IsEmptyRL() || state_out_pos < |w.zbits| { return FlushOk; }
      AllFlushed();
      mode := Running;
      return RunOk;
    }

    /** A call that goes on finishing the stream. */
    method FinishOn(strm: Strm) returns (code: Code)
      requires Valid() && mode == Finishing && avail_in_expect == |strm.input| && (finished ==> Waiting())
      modifies this, w, arr2, strm
      ensures Between() && Taken(old(consumed), old(strm.input), consumed, strm.input)
      ensures Passed(old(strm.output), old(Emitted()), strm.output, Emitted())
      ensures strm.availOut + |strm.output| == old(strm.availOut + |strm.output|)
      ensures code == SequenceError || code == FinishOk || code == StreamEnd
      ensures code == SequenceError <==> !old(CanMove(strm))
      ensures code == SequenceError ==> strm.output == old(strm.output) && strm.input == old(strm.input)
      ensures code != StreamEnd ==> mode == Finishing && avail_in_expect == |strm.input|
      ensures code == FinishOk ==> strm.availOut == 0 && Waiting()
      ensures code == StreamEnd ==>
                mode == Idle && strm.input == [] && consumed == TextsOf(blocks)
                && Finished(BytesToBits(Emitted()), blocks, es, blockSize100k, rule)
      ensures Grown(old(blocks), blocks, LeastFull(), true)
    {
      hide Grown, Accounted, ReadyForInput, Written, Passed, Taken, Finished, BytesToBits, TextsOf;
      var progress := HandleCompress(strm);
      GrownMost(old(blocks), blocks, LeastFull(), AllIn(), true);
      PassedLength(old(strm.output), old(Emitted()), strm.output, Emitted());
      TakenLength(old(consumed), old(strm.input), consumed, strm.input);
      if !progress { return SequenceError; }
      if avail_in_expect > 0 || !IsEmptyRL() || state_out_pos < |w.zbits| { return FinishOk; }
      AllFlushed();
      AllHandedOut();
      mode := Idle;
      return StreamEnd;
    }

    lemma AllFlushed()
      requires Accounted() && runs == [] && IsEmptyRL()
      ensures consumed == TextsOf(blocks)
    {
    }

    lemma AllHandedOut()
      requires Valid() && finished && state_out_pos == |w.zbits|
      ensures Finished(BytesToBits(Emitted()), blocks, es, blockSize100k, rule)
    {
      assert w.zbits[..|w.zbits|] == w.zbits;
    }
  }

  /** Blocks have been added that hold at least so many bytes, but for the last one maybe. */
  ghost predicate Grown(before: seq<seq<Byte>>, after: seq<seq<Byte>>, least: int, butLast: bool) {
    before <= after && forall i :: |before| <= i < |after| - (if butLast then 1 else 0) ==> |after[i]| >= least
  }

  /** A block of so many bytes has been added. */
  ghost predicate OneMore(before: seq<seq<Byte>>, after: seq<seq<Byte>>, size: nat) {
    |after| == |before| + 1 && after[..|before|] == before && |after[|before|]| == size
  }

  lemma OneAdded(before: seq<seq<Byte>>, block: seq<Byte>)
    ensures OneMore(before, before + [block], |block|)
  {
  }

  lemma NotGrown(blocks: seq<seq<Byte>>, least: int, butLast: bool)
    ensures Grown(blocks, blocks, least, butLast)
  {
  }

  lemma GrownTwice(a: seq<seq<Byte>>, b: seq<seq<Byte>>, c: seq<seq<Byte>>, least: int, last: bool, last': bool)
    requires Grown(a, b, least, last) && Grown(b, c, least, last') && (last ==> c == b && last')
    ensures Grown(a, c, least, last')
  {
    assert forall i :: 0 <= i < |b| ==> c[i] == b[i];
  }

  lemma GrownMost(a: seq<seq<Byte>>, b: seq<seq<Byte>>, least: int, last: bool, last': bool)
    requires Grown(a, b, least, last) && (last ==> last')
    ensures Grown(a, b, least, last')
  {
  }

  /** What has gone from the input is what has been consumed. */
  ghost predicate Taken(c0: seq<Byte>, i0: seq<Byte>, c1: seq<Byte>, i1: seq<Byte>) {
    |i1| <= |i0| && c1 + i1 == c0 + i0
  }

  lemma TakenOne(c: seq<Byte>, i: seq<Byte>)
    requires i != []
    ensures Taken(c, i, c + [i[0]], i[1..])
  {
    assert i == [i[0]] + i[1..];
  }

  lemma TakenNothing(c: seq<Byte>, i: seq<Byte>)
    ensures Taken(c, i, c, i)
  {
  }

  lemma TakenTwice(c0: seq<Byte>, i0: seq<Byte>, c1: seq<Byte>, i1: seq<Byte>, c2: seq<Byte>, i2: seq<Byte>)
    requires Taken(c0, i0, c1, i1) && Taken(c1, i1, c2, i2)
    ensures Taken(c0, i0, c2, i2) && |i2| <= |i1| <= |i0|
  {
  }

  lemma TakenLength(c0: seq<Byte>, i0: seq<Byte>, c1: seq<Byte>, i1: seq<Byte>)
    requires Taken(c0, i0, c1, i1)
    ensures |i1| <= |i0| && (|i0| == |i1| ==> i0 == i1)
  {
    assert i0 == (c0 + i0)[|c0|..] && i1 == (c1 + i1)[|c1|..];
  }

  lemma PassedOutput(taken: seq<Byte>, zbits: seq<Byte>, p: nat, q: nat, out: seq<Byte>)
    requires p <= q <= |zbits|
    ensures Passed(out, taken + zbits[..p], out + zbits[p..q], taken + zbits[..q])
  {
    assert zbits[..q] == zbits[..p] + zbits[p..q];
  }

  lemma FilledBlock(block: seq<Byte>, runs: seq<RunLength.Run>, ch: nat, len: nat, inUse: seq<bool>, crc: Crc, rule: CrcRule)
    requires Filling(block, runs, ch, len, inUse, crc, rule)
    ensures Unrle(block) == Text(Expand(runs)) && TextOf(block) == Expand(runs) && UsesAll(inUse, block)
    ensures crc == CrcOf(rule, TextOf(block)) && (block == [] ==> Expand(runs) == [])
  {
    UnrlePairs(runs);
  }

  lemma AccountBlock(texts: seq<Byte>, text: seq<Byte>, pending: seq<Byte>)
    ensures texts + text + pending == (texts + text) + Expand([]) + pending
    ensures text == [] ==> texts + text == texts
  {
  }

  /** The pieces written since were to come right after what was taken. */
  lemma EndsFinished(taken: Bits, was: Bits, blocks: seq<seq<Byte>>, es: seq<Encoding>, size: nat, rule: CrcRule,
                     all: Bits, pad: Bits)
    requires AllEncode(blocks, es, size, rule) && taken + was == OpenBits(true, blocks, es, size, rule) && |pad| < 8
    requires all == was + BytesToBits(END_MAGIC) + BytesToBits(RunLength.Joined(rule, blocks))
    ensures Finished(taken + (all + pad), blocks, es, size, rule)
  {
    hide OpenBits, BytesToBits, RunLength.Joined;
    var a, b := BytesToBits(END_MAGIC), BytesToBits(RunLength.Joined(rule, blocks));
    AppendParts(was, a, b);
    AppendParts(taken, was, a + b);
    AppendParts(taken, all, pad);
    assert taken + (all + pad) == OpenBits(true, blocks, es, size, rule) + EndBits(blocks, rule) + pad;
  }

  lemma OpenStarts(blockNo: nat, blocks: seq<seq<Byte>>, es: seq<Encoding>, size: nat, rule: CrcRule, taken: Bits, was: Bits)
    requires AllEncode(blocks, es, size, rule) && blockNo >= 1 && taken + was == OpenBits(blockNo > 1, blocks, es, size, rule)
    requires blockNo == 1 ==> blocks == []
    ensures taken + (was + if blockNo == 1 then BytesToBits(HeaderBytes(size)) else []) == OpenBits(true, blocks, es, size, rule)
  {
  }

  lemma FillingFirst(block: seq<Byte>, runs: seq<RunLength.Run>, inUse: seq<bool>, crc: Crc, rule: CrcRule, c: Byte)
    requires Filling(block, runs, NO_CHAR, 0, inUse, crc, rule) && runs == []
    ensures Filling(block, runs, c, 1, inUse, crc, rule)
  {
  }

  lemma BytesPrefix(words: seq<nat>, n: nat)
    requires n < 4 * |words|
    ensures Bytes(words, n + 1)[..n] == Bytes(words, n)
  {
  }
}
