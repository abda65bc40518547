/**
 * The dictionary buffer of the streaming compressor: one array, or two used in turn, taking the input and
 * handing it out block by block, each block preceded by the end of what came before it.
 */
module DictBuffer {
  import opened Permutations

  const ALIGNMENT_SIZE := 16
  const WORD := 0x1_0000_0000_0000_0000

  /** x with the bits of the alignment mask only. */
  function Aligned(x: nat): (r: nat)
    ensures r <= x < r + ALIGNMENT_SIZE && r % ALIGNMENT_SIZE == 0
  {
    x / ALIGNMENT_SIZE * ALIGNMENT_SIZE
  }

  /** What is handed to the compressor: bytes start to end, with all that lies before them as history. */
  datatype DataBlock = DataBlock(data: array<Byte>, start: nat, end: nat)

  /** Copies n bytes to the front of an array, from where they do not overlap it. */
  method MemCopy(dst: array<Byte>, src: array<Byte>, from: nat, n: nat)
    requires n <= dst.Length && from + n <= src.Length
    requires dst != src || n <= from
    modifies dst
    ensures dst[..n] == old(src[from..from + n])
    ensures dst[n..] == old(dst[n..])
  {
    for k := 0 to n
      invariant dst[..k] == old(src[from..from + k])
      invariant dst[n..] == old(dst[n..])
      invariant src[from..from + n] == old(src[from..from + n])
    {
      ghost var got, rest := dst[..k], src[from..from + n];
      dst[k] := src[from + k];
      assert src[from + k] == rest[k] && dst[..k + 1] == got + [rest[k]];
    }
  }

  /** Copies n bytes of the input to a place in an array. */
  method CopyIn(dst: array<Byte>, at: nat, src: seq<Byte>, pos: nat, n: nat)
    requires at + n <= dst.Length && pos + n <= |src|
    modifies dst
    ensures dst[..at] == old(dst[..at]) && dst[at..at + n] == src[pos..pos + n]
  {
    for k := 0 to n
      invariant dst[..at] == old(dst[..at])
      invariant dst[at..at + k] == src[pos..pos + k]
    {
      dst[at + k] := src[pos + k];
    }
  }

  /** Moves n bytes to the front of the same array, wherever they are. */
  method MemMoveDown(a: array<Byte>, from: nat, n: nat)
    requires from + n <= a.Length
    modifies a
    ensures a[..n] == old(a[from..from + n])
  {
    for k := 0 to n
      invariant forall j :: 0 <= j < k ==> a[j] == old(a[from + j])
      invariant forall j :: k <= j < a.Length ==> a[j] == old(a[j])
    {
      a[k] := a[from + k];
    }
  }

  method Allocate(two: bool, n: nat) returns (data: seq<array<Byte>>)
    ensures |data| == (if two then 2 else 1) && (two ==> data[0] != data[1])
    ensures forall k :: 0 <= k < |data| ==> data[k].Length == n && fresh(data[k])
  {
    var a := new Byte[n];
    data := [a];
    if two {
      var b := new Byte[n];
      data := [a, b];
    }
  }

  /** The last n of s. */
  function Last(s: seq<Byte>, n: nat): (r: seq<Byte>)
    requires n <= |s|
    ensures |r| == n
  {
    s[|s| - n..]
  }

  /** The running hash, abstractly: the bytes it was given. */
  datatype Hash = NoHash | Hash(fed: seq<Byte>)

  lemma BlockBytes(input: seq<Byte>, s: seq<Byte>, start: nat)
    requires start <= |s| <= |input| && s == Last(input, |s|)
    ensures var handed := |input| - (|s| - start); s[start..] == input[handed..] && s[..start] == input[handed - start..handed]
  {
  }

  lemma LastOf(input: seq<Byte>, s: seq<Byte>, n: nat)
    requires n <= |s| <= |input| && s == Last(input, |s|)
    ensures s[|s| - n..] == Last(input, n)
  {
  }

  class DictBuffer {
    /** No array before the first Init, then one, or two if the buffer is dual. */
    var data: seq<array<Byte>>
    const async: bool
    var index: nat
    var overlap: nat
    var start: nat
    var end: nat
    var size: nat
    var total: nat
    var resetInterval: nat
    var hash: Hash
    /** All bytes put since Init, and how many of them there were at the last reset. */
    ghost var input: seq<Byte>
    ghost var base: nat

    /** The arrays, none of them shorter than the size in use. */
    ghost predicate Arrays()
      reads this`data, this`size
    {
      && |data| == (if async then 2 else 1) && (async ==> data[0] != data[1])
      && forall k :: 0 <= k < |data| ==> size <= data[k].Length
    }

    /** The array in use holds the last bytes put, back to no further than the last reset. */
    ghost predicate Valid()
      reads this, data
    {
      && Arrays() && index < |data|
      && start <= end <= size && base + end <= |input|
      && data[index][..end] == Last(input, end)
      && base + total == Handed()
      && (size <= resetInterval ==> total + size <= resetInterval + start)
      && (hash.Hash? ==> hash.fed == input[..Handed()])
    }

    /** How many bytes have been handed out. */
    ghost function Handed(): int
      reads this`input, this`start, this`end
    {
      |input| - (end - start)
    }

    constructor (dual: bool)
      ensures async == dual && data == [] && size == 0
    {
      async := dual;
      data, index, overlap, start, end, size, total, resetInterval, hash := [], 0, 0, 0, 0, 0, 0, 0, NoHash;
      input, base := [], 0;
    }

    /** Starts anew, with the arrays there are if they are large enough. */
    method Init(dictSize: nat, lap: nat, resetMultiplier: nat, doHash: bool)
      requires data == [] || Arrays()
      modifies this
      ensures Valid() && input == [] && base == 0 && total == 0 && start == end == 0
      ensures size == dictSize && overlap == lap && hash == if doHash then Hash([]) else NoHash
      ensures resetInterval == if resetMultiplier != 0 then dictSize * resetMultiplier else 0x8000_0000
      ensures if old(data) == [] || dictSize > old(size) then fresh(data) else data == old(data)
    {
      if data == [] || dictSize > size {
        data := Allocate(async, dictSize);
      }
      index, overlap, start, end, size, total := 0, lap, 0, 0, dictSize, 0;
      resetInterval := if resetMultiplier != 0 then dictSize * resetMultiplier else 0x8000_0000;
      hash := if doHash then Hash([]) else NoHash;
      input, base := [], 0;
    }

    function Avail(): nat
      requires end <= size
      reads this`size, this`end
    {
      size - end
    }

    function Unprocessed(): bool
      reads this`start, this`end
    {
      start < end
    }

    /** Takes as much of src, from pos on, as there is room for. */
    method Put(src: seq<Byte>, pos: nat) returns (next: nat)
      requires Valid() && pos <= |src|
      modifies this`end, this`input, data[index]
      ensures Valid() && next == pos + if old(Avail()) < |src| - pos then old(Avail()) else |src| - pos
      ensures input == old(input) + src[pos..next] && end == old(end) + (next - pos)
      ensures data[index][..old(end)] == old(data[index][..end])
    {
      var n := if size - end < |src| - pos then size - end else |src| - pos;
      next := pos + n;
      var a := data[index];
      assert size <= a.Length;
      CopyIn(a, end, src, pos, n);
      assert a[..end + n] == a[..end] + a[end..end + n];
      input := input + src[pos..next];
      end := end + n;
    }

    /** Counts bytes that the caller has written behind the end itself. */
    method Update(added: nat) returns (full: bool)
      requires Valid() && added <= Avail()
      modifies this`end, this`input
      ensures Valid() && end == old(end) + added && input == old(input) + data[index][old(end)..end]
      ensures full == (Avail() == 0)
    {
      input := input + data[index][end..end + added];
      assert data[index][..end + added] == data[index][..end] + data[index][end..end + added];
      end := end + added;
      full := size - end == 0;
    }

    /**
     * Hands out what has come since the last block. The block's bytes are those of the input not handed out
     * before; the bytes in front of them are the input's too, and none is from before the last reset.
     */
    method GetBlock() returns (block: DataBlock)
      requires Valid()
      modifies this`total, this`start, this`hash
      ensures Valid() && block == DataBlock(data[index], old(start), end) && block.start <= block.end <= block.data.Length
      ensures block.data[block.start..block.end] == input[old(Handed())..] && Handed() == |input|
      ensures base <= old(Handed()) - block.start
      ensures block.data[..block.start] == input[old(Handed()) - block.start..old(Handed())]
      ensures total == old(total) + (block.end - block.start) && start == end && hash.Hash? == old(hash.Hash?)
      ensures size <= resetInterval ==> total <= resetInterval
    {
      InUse();
      hide Last;
      block := DataBlock(data[index], start, end);
      BlockBytes(input, data[index][..end], start);
      assert data[index][start..end] == data[index][..end][start..];
      assert data[index][..start] == data[index][..end][..start];
      FedMoreHash();
      if hash.Hash? {
        hash := Hash(hash.fed + data[index][start..end]);
      }
      total := total + (end - start);
      start := end;
    }

    lemma FedMoreHash()
      requires start <= end <= |input|
      ensures input[..Handed()] + input[Handed()..] == input[..|input|]
    {
    }

    /** How far the next cycle of compression would go, as a machine word: an overlap beyond it wraps round. */
    function NextTotal(): (n: int)
      reads this`total, this`size, this`overlap
      ensures overlap <= total + size ==> n == total + size - overlap
    {
      var next := total + size - overlap;
      if next < 0 then next + WORD else next
    }

    /** The next cycle of compression would go past the reset interval. */
    predicate Resets()
      reads this`total, this`size, this`overlap, this`resetInterval
    {
      NextTotal() > resetInterval
    }

    function NeedShift(): (r: bool)
      requires Valid()
      reads this, data
      ensures r <==> !Unprocessed() && (Resets() || overlap == 0 || end >= overlap + ALIGNMENT_SIZE)
    {
      if start < end then false else
        var lap := if NextTotal() > resetInterval then 0 else overlap;
        start == end && (lap == 0 || end >= lap + ALIGNMENT_SIZE)
    }

    /**
     * Makes room: either everything before is forgotten, or the last bytes, at least the overlap, go to the
     * front of the next array. Nothing happens otherwise, and nothing that has been put is lost before it is
     * handed out.
     */
    method Shift()
      requires Valid()
      modifies this`start, this`end, this`index, this`total, this`base, data
      ensures Valid() && Handed() == old(Handed())
      ensures if !old(NeedShift()) then index == old(index) && start == old(start) && end == old(end) && total == old(total) && base == old(base)
              else index == (if async then 1 - old(index) else old(index)) && start == end
      ensures old(NeedShift() && (Resets() || overlap == 0)) ==> start == 0 && total == 0 && base == |input|
      ensures old(NeedShift() && !Resets() && overlap > 0) ==>
                && overlap <= start < overlap + ALIGNMENT_SIZE && start < old(end) && (old(end) - start) % ALIGNMENT_SIZE == 0
                && total == old(total) && base == old(base)
      ensures !old(NeedShift()) || async ==> data[old(index)][..] == old(data[index][..])
    {
      if start < end {
        return;
      }
      var lap := overlap;
      if NextTotal() > resetInterval {
        lap := 0;
      }
      if lap == 0 {
        start, end, total := 0, 0, 0;
        index := if async then 1 - index else index;
        base := |input|;
      } else if end >= lap + ALIGNMENT_SIZE {
        Carry();
      }
    }

    /** Brings the end of what has been put to the front of the next array. */
    method Carry()
      requires Valid() && start == end && end >= overlap + ALIGNMENT_SIZE && !Resets()
      modifies this`start, this`end, this`index, data
      ensures Valid() && index == (if async then 1 - old(index) else old(index)) && start == end
      ensures overlap <= start < overlap + ALIGNMENT_SIZE && start < old(end) && (old(end) - start) % ALIGNMENT_SIZE == 0
      ensures async ==> data[old(index)][..] == old(data[index][..])
    {
      hide Valid, Resets, Last, Arrays;
      InUse();
      var from := Aligned(end - overlap);
      var src := data[index];
      var dst := data[if async then 1 - index else index];
      var lap := end - from;
      assert src[from..end] == src[..end][from..];
      LastOf(input, src[..end], lap);
      if lap <= from || dst != src {
        MemCopy(dst, src, from, lap);
      } else if from != 0 {
        MemMoveDown(dst, from, lap);
      }
      start, end := lap, lap;
      index := if async then 1 - index else index;
      Carried();
    }

    twostate lemma Carried()
      requires old(Valid() && start == end && !Resets()) && start == end <= old(end) && overlap <= end && index < |data|
      requires unchanged(this`data, this`overlap, this`size, this`total, this`resetInterval, this`hash, this`input, this`base)
      requires end <= data[index].Length && data[index][..end] == Last(input, end)
      ensures Valid()
    {
      hide Last;
    }

    /** With room for the overlap and its alignment, a shift when all is handed out always makes room. */
    method ShiftMakesRoom()
      requires Valid() && !Unprocessed() && overlap + ALIGNMENT_SIZE <= size
      modifies this`start, this`end, this`index, this`total, this`base, data
      ensures Valid() && input == old(input) && Handed() == old(Handed()) && Avail() > 0
    {
      Shift();
    }

    /** One round of the loop below before a block is taken: more input, and no harm to the last block. */
    method Refill(src: seq<Byte>, pos: nat, last: DataBlock, ghost seen: seq<Byte>) returns (next: nat)
      requires Valid() && (!Unprocessed() || Avail() > 0) && overlap + ALIGNMENT_SIZE <= size && pos < |src|
      requires async ==> Kept(last, seen)
      requires StillThere(last)
      modifies this`start, this`end, this`index, this`total, this`base, this`input, data
      ensures Valid() && Handed() == old(Handed()) && pos < next <= |src| && input == old(input) + src[pos..next]
      ensures (next < |src| ==> Avail() == 0) && Unprocessed()
      ensures async ==> Kept(last, seen)
      ensures StillThere(last)
    {
      hide Valid, Resets, Arrays, Kept, StillThere;
      if NeedShift() {
        ShiftKeeping(last, seen);
      }
      next := PutKeeping(src, pos, last, seen);
    }

    method ShiftKeeping(last: DataBlock, ghost seen: seq<Byte>)
      requires Valid() && NeedShift() && overlap + ALIGNMENT_SIZE <= size
      requires (async ==> Kept(last, seen)) && StillThere(last)
      modifies this`start, this`end, this`index, this`total, this`base, data
      ensures Valid() && Handed() == old(Handed()) && Avail() > 0 && !Unprocessed()
      ensures (async ==> Kept(last, seen)) && InOther(last)
    {
      InUse();
      hide Valid, Resets, Arrays;
      ghost var j := index;
      Shift();
      assert async ==> last.data[..last.end] == data[j][..][..last.end];
    }

    method PutKeeping(src: seq<Byte>, pos: nat, last: DataBlock, ghost seen: seq<Byte>) returns (next: nat)
      requires Valid() && Avail() > 0 && pos < |src|
      requires (async ==> Kept(last, seen)) && (StillThere(last) || InOther(last))
      modifies this`end, this`input, data
      ensures Valid() && Handed() == old(Handed()) && pos < next <= |src| && input == old(input) + src[pos..next]
      ensures (next < |src| ==> Avail() == 0) && Unprocessed()
      ensures (async ==> Kept(last, seen)) && StillThere(last)
    {
      InUse();
      hide Valid, Resets, Arrays;
      next := Put(src, pos);
      assert async && last.data == data[index] ==> last.data[..last.end] == data[index][..old(end)][..last.end];
    }

    /** The block handed out last is in the array that is not in use. */
    predicate InOther(last: DataBlock)
      reads this`data, this`index
    {
      async ==> |data| == 2 && index < 2 && last.data == data[1 - index]
    }

    /** Where the block handed out last lies: of two arrays, in the one in use, or in the other one until more is handed out. */
    predicate StillThere(last: DataBlock)
      reads this`data, this`index, this`start, this`end
    {
      async ==> |data| == 2 && index < 2 && ((last.data == data[index] && last.end <= end) || (Unprocessed() && last.data == data[1 - index]))
    }

    /**
     * The compressor's loop over its input: what it hands out, at moments of its own choosing and whenever
     * the buffer is full, is the input, in order. With two arrays each block stays as it was handed out until
     * the next one is.
     */
    method Feed(src: seq<Byte>) returns (blocks: seq<seq<Byte>>)
      requires Valid() && !Unprocessed() && overlap + ALIGNMENT_SIZE <= size
      modifies this, data
      ensures Valid() && !Unprocessed() && input == old(input) + src && Concat(blocks) == src
      ensures hash == if old(hash).Hash? then Hash(old(hash).fed + src) else NoHash
    {
      InUse();
      hide Valid, Resets, Arrays, Concat, FedTo, Told, StillThere, Kept;
      var pos, last := 0, DataBlock(data[index], 0, 0);
      ghost var seen := last.data[..0];
      blocks := [];
      Begins(input, src);
      StillThereAtFirst(last);
      KeptNow(last);
      while pos < |src|
        invariant Valid() && (!Unprocessed() || (Avail() > 0 && pos < |src|)) && overlap + ALIGNMENT_SIZE <= size && data == old(data)
        invariant pos <= |src| && FedTo(input, old(input), src, pos)
        invariant Told(blocks, src, Handed() - |old(input)|) && hash.Hash? == old(hash).Hash?
        invariant async ==> Kept(last, seen)
        invariant StillThere(last)
      {
        ghost var was, p := input, pos;
        pos := Refill(src, pos, last, seen);
        FedMore(was, old(input), src, p, pos);
        var now: bool := *;
        if Avail() == 0 || now || pos == |src| {
          last, blocks, seen := Take(blocks, src, pos, old(input));
        }
      }
      Ends(blocks, input, old(input), src);
      HashIsInput();
    }

    /** A block is taken. */
    method Take(blocks: seq<seq<Byte>>, src: seq<Byte>, pos: nat, ghost before: seq<Byte>)
      returns (last: DataBlock, more: seq<seq<Byte>>, ghost seen: seq<Byte>)
      requires Valid() && FedTo(input, before, src, pos) && Told(blocks, src, Handed() - |before|)
      modifies this`total, this`start, this`hash
      ensures Valid() && !Unprocessed() && hash.Hash? == old(hash.Hash?)
      ensures Told(more, src, Handed() - |before|) && Kept(last, seen) && StillThere(last)
    {
      hide Valid, Concat, FedTo, Told, StillThere, Kept;
      ghost var from := Handed();
      TakenSoFar(blocks, src, from - |before|);
      last := GetBlock();
      var block := last.data[last.start..last.end];
      BlockIsNext(blocks, block, input, before, src, pos, from);
      more := blocks + [block];
      seen := last.data[..last.end];
      StillThereAtFirst(last);
      KeptNow(last);
    }

    lemma StillThereAtFirst(last: DataBlock)
      requires Valid() && last.data == data[index] && last.end <= end
      ensures StillThere(last)
    {
    }

    lemma HashIsInput()
      requires Valid() && !Unprocessed()
      ensures hash.Hash? ==> hash.fed == input
    {
      assert input[..Handed()] == input;
    }

    lemma InUse()
      requires Valid()
      ensures |data| == (if async then 2 else 1) && index < |data| && (async ==> data[0] != data[1])
      ensures start <= end <= size <= data[index].Length && (async ==> size <= data[1 - index].Length)
      ensures end <= |input| && data[index][..end] == Last(input, end)
      ensures hash.Hash? ==> hash.fed == input[..Handed()]
    {
    }
  }

  /** The blocks one after another. */
  function Concat(blocks: seq<seq<Byte>>): seq<Byte> {
    if blocks == [] then [] else Concat(blocks[..|blocks| - 1]) + blocks[|blocks| - 1]
  }

  /** The block and what lies before it are as they were. */
  ghost predicate Kept(last: DataBlock, seen: seq<Byte>)
    reads last.data
  {
    last.end <= last.data.Length && last.data[..last.end] == seen
  }

  lemma KeptNow(last: DataBlock)
    requires last.end <= last.data.Length
    ensures Kept(last, last.data[..last.end])
  {
  }

  /** Exactly src, as far as pos, was put after before. */
  ghost predicate FedTo(input: seq<Byte>, before: seq<Byte>, src: seq<Byte>, pos: nat) {
    pos <= |src| && input == before + src[..pos]
  }

  /** The blocks are the first k of src. */
  ghost predicate Told(blocks: seq<seq<Byte>>, src: seq<Byte>, k: int) {
    0 <= k <= |src| && Concat(blocks) == src[..k]
  }

  lemma FedMore(input: seq<Byte>, before: seq<Byte>, src: seq<Byte>, pos: nat, next: nat)
    requires FedTo(input, before, src, pos) && pos <= next <= |src|
    ensures FedTo(input + src[pos..next], before, src, next)
  {
  }

  lemma BlockIsNext(blocks: seq<seq<Byte>>, block: seq<Byte>, input: seq<Byte>, before: seq<Byte>, src: seq<Byte>, pos: nat, from: nat)
    requires FedTo(input, before, src, pos) && Told(blocks, src, from - |before|)
    requires from <= |input| && block == input[from..]
    ensures Told(blocks + [block], src, |input| - |before|)
  {
    assert (blocks + [block])[..|blocks|] == blocks;
    assert block == src[from - |before|..pos];
  }

  lemma TakenSoFar(blocks: seq<seq<Byte>>, src: seq<Byte>, k: int)
    requires Told(blocks, src, k)
    ensures 0 <= k
  {
  }

  lemma Begins(input: seq<Byte>, src: seq<Byte>)
    ensures FedTo(input, input, src, 0) && Told([], src, 0)
  {
  }

  lemma Ends(blocks: seq<seq<Byte>>, input: seq<Byte>, before: seq<Byte>, src: seq<Byte>)
    requires FedTo(input, before, src, |src|) && Told(blocks, src, |input| - |before|)
    ensures input == before + src && Concat(blocks) == src
  {
    assert src[..|src|] == src;
  }
}
