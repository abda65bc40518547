/** 20-bit entries split over an array of 16-bit words and an array of nibble pairs. */
module PackedLinks {

  const ENTRY_LIMIT := 0x10_0000

  function Nibble(byte: nat, i: nat): nat {
    if i % 2 == 0 then byte % 16 else byte / 16 % 16
  }

  /** byte with the nibble for entry i replaced by n, the other nibble kept. */
  function WithNibble(byte: nat, i: nat, n: nat): nat {
    if i % 2 == 0 then byte / 16 % 16 * 16 + n else byte % 16 + n * 16
  }

  ghost predicate Packed(ll16: seq<nat>, ll4: seq<nat>, n: nat) {
    && n <= |ll16| && (n + 1) / 2 <= |ll4|
    && (forall i :: 0 <= i < |ll16| ==> ll16[i] < 0x1_0000)
    && (forall i :: 0 <= i < |ll4| ==> ll4[i] < 0x100)
  }

  /** The n entries. */
  ghost function Entries(ll16: seq<nat>, ll4: seq<nat>, n: nat): (e: seq<nat>)
    requires Packed(ll16, ll4, n)
    ensures |e| == n && forall i :: 0 <= i < n ==> e[i] == ll16[i] + Nibble(ll4[i / 2], i) * 0x1_0000
  {
    seq(n, i requires 0 <= i < n => ll16[i] + Nibble(ll4[i / 2], i) * 0x1_0000)
  }

  method GetEntry(ll16: array<nat>, ll4: array<nat>, i: nat, ghost n: nat) returns (v: nat)
    requires Packed(ll16[..], ll4[..], n) && i < n
    ensures v == Entries(ll16[..], ll4[..], n)[i]
  {
    v := ll16[i] + Nibble(ll4[i / 2], i) * 0x1_0000;
  }

  lemma NibbleKept(byte: nat, i: nat, j: nat, n: nat)
    requires byte < 256 && n < 16
    ensures WithNibble(byte, i, n) < 256
    ensures Nibble(WithNibble(byte, i, n), j) == if i % 2 == j % 2 then n else Nibble(byte, j)
  {
  }

  method SetEntry(ll16: array<nat>, ll4: array<nat>, i: nat, v: nat, ghost n: nat)
    requires ll16 != ll4 && Packed(ll16[..], ll4[..], n) && i < n && v < ENTRY_LIMIT
    modifies ll16, ll4
    ensures Packed(ll16[..], ll4[..], n)
    ensures Entries(ll16[..], ll4[..], n) == old(Entries(ll16[..], ll4[..], n))[i := v]
    ensures ll16[..] == old(ll16[..])[i := v % 0x1_0000]
  {
    ghost var w16, w4 := ll16[..], ll4[..];
    PackedUpdate(w16, w4, i, v, n);
    ll16[i] := v % 0x1_0000;
    ll4[i / 2] := WithNibble(ll4[i / 2], i, v / 0x1_0000);
  }

  lemma PackedUpdate(w16: seq<nat>, w4: seq<nat>, i: nat, v: nat, n: nat)
    requires Packed(w16, w4, n) && i < n && v < ENTRY_LIMIT
    ensures var u16, u4 := w16[i := v % 0x1_0000], w4[i / 2 := WithNibble(w4[i / 2], i, v / 0x1_0000)];
            Packed(u16, u4, n) && Entries(u16, u4, n) == Entries(w16, w4, n)[i := v]
  {
    var u16, u4 := w16[i := v % 0x1_0000], w4[i / 2 := WithNibble(w4[i / 2], i, v / 0x1_0000)];
    NibbleKept(w4[i / 2], i, i, v / 0x1_0000);
    forall j | 0 <= j < n ensures Entries(u16, u4, n)[j] == Entries(w16, w4, n)[i := v][j] {
      if j / 2 == i / 2 {
        NibbleKept(w4[i / 2], i, j, v / 0x1_0000);
      }
    }
  }
}
