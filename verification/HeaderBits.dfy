/** The bucket-header bit table of the fallback sort: 32 header bits to a word. */
module HeaderBits {

  /** Bit k of w. */
  predicate Bit(w: nat, k: nat) {
    if k == 0 then w % 2 == 1 else Bit(w / 2, k - 1)
  }

  /** w with bit k raised. */
  function OrBit(w: nat, k: nat): nat {
    if k == 0 then w / 2 * 2 + 1 else w % 2 + 2 * OrBit(w / 2, k - 1)
  }

  /** w with bit k lowered. */
  function AndNotBit(w: nat, k: nat): nat {
    if k == 0 then w / 2 * 2 else w % 2 + 2 * AndNotBit(w / 2, k - 1)
  }

  function Pow2(n: nat): (p: nat)
    ensures p > 0
  {
    if n == 0 then 1 else 2 * Pow2(n - 1)
  }

  lemma {:induction false} OrBitAt(w: nat, k: nat, j: nat)
    ensures Bit(OrBit(w, k), j) <==> j == k || Bit(w, j)
    decreases k
  {
    if k > 0 {
      assert OrBit(w, k) / 2 == OrBit(w / 2, k - 1);
      if j > 0 {
        OrBitAt(w / 2, k - 1, j - 1);
      }
    } else if j > 0 {
      assert OrBit(w, 0) / 2 == w / 2;
    }
  }

  lemma {:induction false} AndNotBitAt(w: nat, k: nat, j: nat)
    ensures Bit(AndNotBit(w, k), j) <==> j != k && Bit(w, j)
    decreases k
  {
    if k > 0 {
      assert AndNotBit(w, k) / 2 == AndNotBit(w / 2, k - 1);
      if j > 0 {
        AndNotBitAt(w / 2, k - 1, j - 1);
      }
    } else if j > 0 {
      assert AndNotBit(w, 0) / 2 == w / 2;
    }
  }

  lemma {:induction false} BitUpdateBound(w: nat, k: nat, n: nat)
    requires k < n && w < Pow2(n)
    ensures OrBit(w, k) < Pow2(n) && AndNotBit(w, k) < Pow2(n)
    decreases k
  {
    if k > 0 {
      BitUpdateBound(w / 2, k - 1, n - 1);
    }
  }

  function Uniform(n: nat, value: bool): nat {
    if value then Pow2(n) - 1 else 0
  }

  ghost predicate AllBits(w: nat, n: nat, value: bool) {
    forall j: nat :: j < n ==> Bit(w, j) == value
  }

  lemma AllBitsStep(w: nat, n: nat, value: bool)
    requires n > 0
    ensures AllBits(w, n, value) <==> (w % 2 == 1) == value && AllBits(w / 2, n - 1, value)
  {
    var h := w / 2;
    assert Bit(w, 0) <==> w % 2 == 1;
    assert forall i: nat :: Bit(w, i + 1) == Bit(h, i);
    if AllBits(w, n, value) {
      assert AllBits(h, n - 1, value) by {
        forall i: nat | i < n - 1 ensures Bit(h, i) == value {
          assert Bit(w, i + 1) == value;
        }
      }
    }
    if (w % 2 == 1) == value && AllBits(h, n - 1, value) {
      forall j: nat | j < n ensures Bit(w, j) == value {
        if j > 0 {
          assert Bit(h, j - 1) == value;
        }
      }
    }
  }

  /** A word is all ones, or all zeros, exactly when each of its bits is. */
  lemma {:induction false} UniformWord(w: nat, n: nat, value: bool)
    requires w < Pow2(n)
    ensures w == Uniform(n, value) <==> AllBits(w, n, value)
  {
    if n > 0 {
      UniformWord(w / 2, n - 1, value);
      AllBitsStep(w, n, value);
    }
  }

  ghost predicate Words(t: seq<nat>) {
    forall i :: 0 <= i < |t| ==> t[i] < 0x1_0000_0000
  }

  /** The table as a sequence of header flags. */
  ghost function Flags(t: seq<nat>): (f: seq<bool>)
    ensures |f| == 32 * |t| && forall z :: 0 <= z < |f| ==> f[z] == Bit(t[z / 32], z % 32)
  {
    seq(32 * |t|, z requires 0 <= z < 32 * |t| => Bit(t[z / 32], z % 32))
  }

  lemma Pow2Of32()
    ensures Pow2(32) == 0x1_0000_0000
  {
    assert Pow2(8) == 256;
    assert Pow2(16) == 65536;
    assert Pow2(24) == 0x100_0000;
  }

  method IsSet(bhtab: array<nat>, z: nat) returns (set_: bool)
    requires z < 32 * bhtab.Length
    ensures set_ == Flags(bhtab[..])[z]
  {
    set_ := Bit(bhtab[z / 32], z % 32);
  }

  method Raise(bhtab: array<nat>, z: nat)
    requires z < 32 * bhtab.Length && Words(bhtab[..])
    modifies bhtab
    ensures Words(bhtab[..]) && Flags(bhtab[..]) == old(Flags(bhtab[..]))[z := true]
  {
    Pow2Of32();
    BitUpdateBound(bhtab[z / 32], z % 32, 32);
    forall j ensures Bit(OrBit(bhtab[z / 32], z % 32), j) <==> j == z % 32 || Bit(bhtab[z / 32], j) {
      OrBitAt(bhtab[z / 32], z % 32, j);
    }
    bhtab[z / 32] := OrBit(bhtab[z / 32], z % 32);
  }

  method Lower(bhtab: array<nat>, z: nat)
    requires z < 32 * bhtab.Length && Words(bhtab[..])
    modifies bhtab
    ensures Words(bhtab[..]) && Flags(bhtab[..]) == old(Flags(bhtab[..]))[z := false]
  {
    Pow2Of32();
    BitUpdateBound(bhtab[z / 32], z % 32, 32);
    forall j ensures Bit(AndNotBit(bhtab[z / 32], z % 32), j) <==> j != z % 32 && Bit(bhtab[z / 32], j) {
      AndNotBitAt(bhtab[z / 32], z % 32, j);
    }
    bhtab[z / 32] := AndNotBit(bhtab[z / 32], z % 32);
  }

  /** Tests the whole word holding flag z, where z starts a word. */
  method WordIs(bhtab: array<nat>, z: nat, value: bool) returns (same: bool)
    requires z < 32 * bhtab.Length && z % 32 == 0 && Words(bhtab[..])
    ensures same <==> forall y :: z <= y < z + 32 ==> Flags(bhtab[..])[y] == value
  {
    var w := bhtab[z / 32];
    same := w == if value then 0xffff_ffff else 0;
    Pow2Of32();
    UniformWord(w, 32, value);
    assert same <==> w == Uniform(32, value);
    ghost var f := Flags(bhtab[..]);
    assert forall y :: z <= y < z + 32 ==> f[y] == Bit(w, y - z);
    assert forall j: nat :: j < 32 ==> Bit(w, j) == f[z + j];
    assert AllBits(w, 32, value) <==> forall y :: z <= y < z + 32 ==> f[y] == value;
  }

  /** Steps k over single flags equal to value, to the first other one or a word start. */
  method SkipBits(bhtab: array<nat>, z: nat, value: bool, toWord: bool, ghost stop: nat) returns (k: nat)
    requires Words(bhtab[..])
    requires z <= stop < 32 * bhtab.Length && Flags(bhtab[..])[stop] != value
    ensures z <= k <= stop && (Flags(bhtab[..])[k] != value || (toWord && k % 32 == 0))
    ensures forall y :: z <= y < k ==> Flags(bhtab[..])[y] == value
  {
    k := z;
    var b := IsSet(bhtab, k);
    while b == value && !(toWord && k % 32 == 0)
      invariant z <= k <= stop && b == Flags(bhtab[..])[k]
      invariant forall y :: z <= y < k ==> Flags(bhtab[..])[y] == value
      decreases stop - k
    {
      k := k + 1;
      b := IsSet(bhtab, k);
    }
  }

  /** Steps k over whole words of flags equal to value. */
  method SkipWords(bhtab: array<nat>, z: nat, value: bool, ghost stop: nat) returns (k: nat)
    requires Words(bhtab[..]) && z % 32 == 0
    requires z <= stop < 32 * bhtab.Length && Flags(bhtab[..])[stop] != value
    ensures z <= k <= stop
    ensures forall y :: z <= y < k ==> Flags(bhtab[..])[y] == value
  {
    k := z;
    var same := WordIs(bhtab, k, value);
    while same
      invariant z <= k <= stop && k % 32 == 0
      invariant same <==> forall y :: k <= y < k + 32 ==> Flags(bhtab[..])[y] == value
      invariant forall y :: z <= y < k ==> Flags(bhtab[..])[y] == value
      decreases stop - k
    {
      k := k + 32;
      same := WordIs(bhtab, k, value);
    }
  }

  /**
   * The first flag at or after z that differs from `value`, found as the sort
   * finds bucket ends: bit by bit to a word boundary, then whole words, then
   * bit by bit again.
   */
  method SkipFlags(bhtab: array<nat>, z: nat, value: bool, ghost stop: nat) returns (k: nat)
    requires Words(bhtab[..])
    requires z <= stop < 32 * bhtab.Length && Flags(bhtab[..])[stop] != value
    ensures z <= k <= stop && Flags(bhtab[..])[k] != value
    ensures forall y :: z <= y < k ==> Flags(bhtab[..])[y] == value
  {
    k := SkipBits(bhtab, z, value, true, stop);
    var b := IsSet(bhtab, k);
    if b == value {
      k := SkipWords(bhtab, k, value, stop);
      k := SkipBits(bhtab, k, value, false, stop);
    }
  }
}
