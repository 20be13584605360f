/** Single bits of bytes and of byte sequences, least significant bit first. */
module Bytes {

  function Mask(i: nat): bv8
    requires i < 8
  {
    if i == 0 then 1 else if i == 1 then 2 else if i == 2 then 4 else if i == 3 then 8
    else if i == 4 then 16 else if i == 5 then 32 else if i == 6 then 64 else 128
  }

  predicate BitSet(b: bv8, i: nat)
    requires i < 8
  {
    (b & Mask(i)) != 0
  }

  function OrBit(b: bv8, i: nat, bit: bool): bv8
    requires i < 8
  {
    b | if bit then Mask(i) else 0
  }

  function ClearBit(b: bv8, i: nat): bv8
    requires i < 8
  {
    b & !Mask(i)
  }

  lemma SetOne(b: bv8, i: nat, j: nat)
    requires i < 8 && j < 8
    ensures BitSet(b | Mask(i), j) <==> i == j || BitSet(b, j)
  {
  }

  lemma SetMaybe(b: bv8, i: nat, j: nat, bit: bool)
    requires i < 8 && j < 8
    ensures BitSet(OrBit(b, i, bit), j) <==> (bit && i == j) || BitSet(b, j)
  {
    if bit {
      SetOne(b, i, j);
    } else {
      assert b | 0 == b;
    }
  }

  lemma ClearOne(b: bv8, i: nat, j: nat)
    requires i < 8 && j < 8
    ensures BitSet(ClearBit(b, i), j) <==> i != j && BitSet(b, j)
  {
  }

  lemma AllOrNothing(i: nat)
    requires i < 8
    ensures !BitSet(0, i) && BitSet(0xff, i)
  {
  }

  /** Flag `p` of a byte sequence. */
  predicate FlagAt(bytes: seq<bv8>, p: nat)
    requires p < 8 * |bytes|
  {
    BitSet(bytes[p / 8], p % 8)
  }

  lemma SamePlace(p: nat, q: nat)
    ensures p == q <==> p / 8 == q / 8 && p % 8 == q % 8
  {
  }

  lemma FlagSet(before: seq<bv8>, after: seq<bv8>, bit: bool, p: nat, q: nat)
    requires p < 8 * |before| && q < 8 * |before|
    requires after == before[p / 8 := OrBit(before[p / 8], p % 8, bit)]
    ensures FlagAt(after, q) <==> (p == q && bit) || FlagAt(before, q)
  {
    hide BitSet, Mask, OrBit;
    SetMaybe(before[p / 8], p % 8, q % 8, bit);
    SamePlace(p, q);
  }

  lemma FlagCleared(before: seq<bv8>, after: seq<bv8>, p: nat, q: nat)
    requires p < 8 * |before| && q < 8 * |before|
    requires after == before[p / 8 := ClearBit(before[p / 8], p % 8)]
    ensures FlagAt(after, q) <==> p != q && FlagAt(before, q)
  {
    hide BitSet, Mask, ClearBit;
    ClearOne(before[p / 8], p % 8, q % 8);
    SamePlace(p, q);
  }
}
