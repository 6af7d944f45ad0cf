/** Bits of a byte-packed vector: byte `i`, bit `j` stands for piece `8 * i + j`. */
module Bits {

  /** The mask `(uint8_t)1 << j`, written out; the methods compute the shift, and `MaskIsShift` says it is this. */
  function Mask(j: nat): bv8
    requires j < 8
  {
    if j < 4
    then (if j < 2 then (if j == 0 then 1 else 2) else if j == 2 then 4 else 8)
    else (if j < 6 then (if j == 4 then 16 else 32) else if j == 6 then 64 else 128)
  }

  lemma MaskIsShift(j: nat)
    requires j < 8
    ensures Mask(j) == (1 as bv8) << j
  {
    assert j == 0 || j == 1 || j == 2 || j == 3 || j == 4 || j == 5 || j == 6 || j == 7;
  }

  /** The test `(b & mask) == mask`. */
  predicate Bit(b: bv8, j: nat)
    requires j < 8
  {
    b & Mask(j) == Mask(j)
  }

  /** The pieces a packed vector stands for. */
  ghost function PiecesOf(v: seq<bv8>): set<nat> {
    set p: nat | p < 8 * |v| && Bit(v[p / 8], p % 8)
  }

  /** Flipping bit `j` changes bit `j` and no other. */
  lemma FlipBit(b: bv8, j: nat, k: nat)
    requires j < 8 && k < 8
    ensures Bit(b ^ Mask(j), k) <==> if j == k then !Bit(b, k) else Bit(b, k)
  {
  }

  lemma DiffBit(left: bv8, right: bv8, j: nat)
    requires j < 8
    ensures Bit(left ^ (left | right), j) <==> Bit(right, j) && !Bit(left, j)
  {
    DiffMasked(left, right, Mask(j));
    ClearBit(left, j);
  }

  lemma DiffMasked(left: bv8, right: bv8, m: bv8)
    ensures (left ^ (left | right)) & m == m <==> right & m == m && left & m == 0
  {
  }

  lemma ClearBit(b: bv8, j: nat)
    requires j < 8
    ensures b & Mask(j) == 0 <==> !Bit(b, j)
  {
  }

  lemma FillBits(j: nat)
    requires j < 8
    ensures !Bit(0, j) && Bit(0xFF, j) && (Bit(1, j) <==> j == 0)
  {
    assert j == 0 || j == 1 || j == 2 || j == 3 || j == 4 || j == 5 || j == 6 || j == 7;
  }
}
