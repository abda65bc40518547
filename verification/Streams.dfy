/** The caller's buffers, as both ends of the codec see them. */
module Streams {
  import opened Permutations

  /** Input not yet taken, room for output, and the output so far. */
  class Strm {
    var input: seq<Byte>
    var availOut: nat
    var output: seq<Byte>

    constructor (bytes: seq<Byte>, room: nat)
      ensures input == bytes && availOut == room && output == []
    {
      input, availOut, output := bytes, room, [];
    }
  }

  /** What has been added to the output is what has been added to the bytes emitted. */
  ghost predicate Passed(out0: seq<Byte>, em0: seq<Byte>, out1: seq<Byte>, em1: seq<Byte>) {
    em0 <= em1 && out1 == out0 + em1[|em0|..]
  }

  lemma PassedNothing(out: seq<Byte>, em: seq<Byte>)
    ensures Passed(out, em, out, em)
  {
  }

  lemma PassedLength(out0: seq<Byte>, em0: seq<Byte>, out1: seq<Byte>, em1: seq<Byte>)
    requires Passed(out0, em0, out1, em1)
    ensures |out1| >= |out0| && (|out1| == |out0| ==> out1 == out0)
  {
  }

  lemma PassedTwice(out0: seq<Byte>, em0: seq<Byte>, out1: seq<Byte>, em1: seq<Byte>, out2: seq<Byte>, em2: seq<Byte>)
    requires Passed(out0, em0, out1, em1) && Passed(out1, em1, out2, em2)
    ensures Passed(out0, em0, out2, em2) && |out0| <= |out1| <= |out2|
  {
    assert em1[|em0|..] + em2[|em1|..] == em2[|em0|..];
  }

  lemma PassedOne(out0: seq<Byte>, em0: seq<Byte>, out1: seq<Byte>, em1: seq<Byte>, c: Byte)
    requires Passed(out0, em0, out1, em1)
    ensures Passed(out0, em0, out1 + [c], em1 + [c])
  {
    assert (em1 + [c])[|em0|..] == em1[|em0|..] + [c];
  }
}
