/** One array of 32-bit words, also addressed byte by byte (lowest byte first). */
module ByteView {
  import opened Permutations

  function Lane(k: nat): nat
    requires k < 4
  {
    if k == 0 then 1 else if k == 1 then 0x100 else if k == 2 then 0x1_0000 else 0x100_0000
  }

  function ByteOf(w: nat, k: nat): Byte
    requires k < 4
  {
    w / Lane(k) % 256
  }

  function Word(a: Byte, b: Byte, c: Byte, d: nat): nat {
    a + 0x100 * b + 0x1_0000 * c + 0x100_0000 * d
  }

  lemma BytesOfWord(a: Byte, b: Byte, c: Byte, d: nat)
    ensures ByteOf(Word(a, b, c, d), 0) == a && ByteOf(Word(a, b, c, d), 1) == b
    ensures ByteOf(Word(a, b, c, d), 2) == c && ByteOf(Word(a, b, c, d), 3) == d % 256
  {
    var w := Word(a, b, c, d);
    assert w / 0x100 == b + 0x100 * c + 0x1_0000 * d;
    assert w / 0x1_0000 == c + 0x100 * d;
    assert w / 0x100_0000 == d;
  }

  /** w with byte k replaced by v. */
  function WithByte(w: nat, k: nat, v: Byte): nat
    requires k < 4
  {
    var top := w / 0x100_0000;
    Word(if k == 0 then v else ByteOf(w, 0), if k == 1 then v else ByteOf(w, 1),
         if k == 2 then v else ByteOf(w, 2), if k == 3 then top / 0x100 * 0x100 + v else top)
  }

  lemma ByteOfWithByte(w: nat, k: nat, v: Byte)
    requires k < 4
    ensures forall j: nat :: j < 4 ==> ByteOf(WithByte(w, k, v), j) == if j == k then v else ByteOf(w, j)
  {
    var top := w / 0x100_0000;
    assert ByteOf(w, 3) == top % 0x100 && (top / 0x100 * 0x100 + v) % 0x100 == v;
    BytesOfWord(if k == 0 then v else ByteOf(w, 0), if k == 1 then v else ByteOf(w, 1),
                if k == 2 then v else ByteOf(w, 2), if k == 3 then top / 0x100 * 0x100 + v else top);
  }

  /** The first n bytes. */
  function Bytes(words: seq<nat>, n: nat): (b: seq<Byte>)
    requires n <= 4 * |words|
    ensures |b| == n && forall i :: 0 <= i < n ==> b[i] == ByteOf(words[i / 4], i % 4)
  {
    seq(n, i requires 0 <= i < n => ByteOf(words[i / 4], i % 4))
  }

  method GetByte(words: array<nat>, i: nat) returns (v: Byte)
    requires i < 4 * words.Length
    ensures v == Bytes(words[..], i + 1)[i]
  {
    v := ByteOf(words[i / 4], i % 4);
  }

  method SetByte(words: array<nat>, i: nat, v: Byte, n: nat)
    requires i < n <= 4 * words.Length
    modifies words
    ensures Bytes(words[..], n) == old(Bytes(words[..], n))[i := v]
  {
    ByteOfWithByte(words[i / 4], i % 4, v);
    words[i / 4] := WithByte(words[i / 4], i % 4, v);
  }
}
