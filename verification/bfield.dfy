/** The byte-packed bit field, and its reading as a set of piece numbers. */
module BitfieldModel {
  import opened Bits

  /** How many bytes `npcs` bits take. */
  function NumBytes(npcs: nat): nat {
    npcs / 8 + if npcs % 8 != 0 then 1 else 0
  }

  /** The piece numbers below `n`. */
  function Below(n: nat): (s: set<nat>)
    ensures forall p: nat :: p in s <==> p < n
  {
    if n == 0 then {} else Below(n - 1) + {n - 1}
  }

  /** Setting a clear bit adds that piece and no other. */
  lemma SetBit(v: seq<bv8>, i: nat, j: nat)
    requires i < |v| && j < 8 && !Bit(v[i], j)
    ensures PiecesOf(v[i := v[i] ^ Mask(j)]) == PiecesOf(v) + {8 * i + j}
  {
    var w := v[i := v[i] ^ Mask(j)];
    forall p: nat | p < 8 * |v| ensures Bit(w[p / 8], p % 8) <==> p == 8 * i + j || Bit(v[p / 8], p % 8) {
      FlipBit(v[i], j, p % 8);
    }
  }

  /** Clearing a set bit removes that piece and no other. */
  lemma UnsetBit(v: seq<bv8>, i: nat, j: nat)
    requires i < |v| && j < 8 && Bit(v[i], j)
    ensures PiecesOf(v[i := v[i] ^ Mask(j)]) == PiecesOf(v) - {8 * i + j}
  {
    var w := v[i := v[i] ^ Mask(j)];
    forall p: nat | p < 8 * |v| ensures Bit(w[p / 8], p % 8) <==> p != 8 * i + j && Bit(v[p / 8], p % 8) {
      FlipBit(v[i], j, p % 8);
    }
  }

  /** The loop's address of bit `j` of byte `i` is the one `/ 8` and `% 8` find again. */
  lemma Address(v: seq<bv8>, i: nat, j: nat)
    requires i < |v| && j < 8
    ensures 8 * i + j in PiecesOf(v) <==> Bit(v[i], j)
  {
  }

  /** The test-and-set of `flip`, on the vector. */
  function Flipped(v: seq<bv8>, i: nat, j: nat): seq<bv8>
    requires i < |v| && j < 8
  {
    if v[i] & Mask(j) != Mask(j) then v[i := v[i] ^ Mask(j)] else v
  }

  lemma FlippedPieces(v: seq<bv8>, i: nat, j: nat)
    requires i < |v| && j < 8
    ensures PiecesOf(Flipped(v, i, j)) == PiecesOf(v) + {8 * i + j} && |Flipped(v, i, j)| == |v|
    ensures v[i] & Mask(j) != Mask(j) <==> 8 * i + j !in PiecesOf(v)
  {
    Address(v, i, j);
    if !Bit(v[i], j) {
      SetBit(v, i, j);
    }
  }

  /** The byte with its low `n` bits set, as the constructor's loop builds it. */
  method LowBits(n: nat) returns (mask: bv8)
    requires n <= 8
    ensures forall j :: 0 <= j < 8 ==> (Bit(mask, j) <==> j < n)
  {
    mask := 0;
    for i := 0 to n
      invariant forall j :: 0 <= j < 8 ==> (Bit(mask, j) <==> j < i)
    {
      forall j {:trigger Bit(mask ^ Mask(i), j)} | 0 <= j < 8 ensures Bit(mask ^ Mask(i), j) <==> j < i + 1 {
        FlipBit(mask, i, j);
      }
      mask := mask ^ Mask(i);
    }
  }

  /** The vector the constructor builds as written: whole bytes hold 1, the last one holds eight set bits. */
  function FilledAsWritten(hasfile: bool, npcs: nat): (v: seq<bv8>)
    ensures |v| == NumBytes(npcs)
  {
    seq(npcs / 8, _ => if hasfile then 1 else 0) + if npcs % 8 != 0 then [if hasfile then 0xFF else 0] else []
  }

  /** As written, a full field has the lowest bit of each whole byte and every bit of the last, partial one. */
  lemma FilledAsWrittenPieces(hasfile: bool, npcs: nat, p: nat)
    ensures p in PiecesOf(FilledAsWritten(hasfile, npcs)) <==>
      hasfile && if p / 8 < npcs / 8 then p % 8 == 0 else p / 8 < NumBytes(npcs)
  {
    var v := FilledAsWritten(hasfile, npcs);
    if p / 8 < |v| {
      Address(v, p / 8, p % 8);
    }
    FillBits(p % 8);
    if p / 8 < npcs / 8 {
      assert v[p / 8] == if hasfile then 1 else 0;
    } else if p / 8 < |v| {
      assert v[p / 8] == if hasfile then 0xFF else 0;
    }
  }

  /** As written, the constructor sets the bits of exactly the pieces held only where there are none to hold. */
  lemma FilledAsWrittenIff(hasfile: bool, npcs: nat)
    ensures PiecesOf(FilledAsWritten(hasfile, npcs)) == (if hasfile then Below(npcs) else {}) <==> !hasfile || npcs == 0
  {
    var v := FilledAsWritten(hasfile, npcs);
    forall j: nat | j < 8 ensures !Bit(0, j) && Bit(0xFF, j) && (Bit(1, j) <==> j == 0) {
      FillBits(j);
    }
    if !hasfile {
      assert forall p: nat :: p < 8 * |v| ==> v[p / 8] == 0;
    } else if npcs >= 8 {
      assert 1 in Below(npcs) && 1 !in PiecesOf(v);
    } else if npcs > 0 {
      assert 7 in PiecesOf(v) && 7 !in Below(npcs);
    }
  }

  class Bfield {
    var bfield: seq<bv8>

    ghost function Pieces(): set<nat>
      reads this
    {
      PiecesOf(bfield)
    }

    /** The field of the handlers' shared earmarks: as many bytes as there are pieces. */
    constructor Earmarks(npcs: nat)
      ensures |bfield| == npcs && Pieces() == {}
    {
      bfield := seq(npcs, _ => 0);
      new;
      forall p: nat | p < 8 * npcs ensures !Bit(bfield[p / 8], p % 8) {
        FillBits(p % 8);
      }
    }

    /** The store's own field, with the low bits of the last byte set as the constructor's comment has it. */
    constructor Store(hasfile: bool, npcs: nat)
      ensures |bfield| == NumBytes(npcs) && Pieces() == if hasfile then Below(npcs) else {}
    {
      var tail := LowBits(if hasfile then npcs % 8 else 0);
      bfield := seq(npcs / 8, _ => if hasfile then 0xFF else 0) + if npcs % 8 != 0 then [tail] else [];
      new;
      forall p: nat | p < 8 * |bfield| ensures Bit(bfield[p / 8], p % 8) <==> hasfile && p < npcs {
        FillBits(p % 8);
      }
    }

    /** Appends to `diff` the bits `right` has set and this field has not. */
    method Diff(right: seq<bv8>, diff: seq<bv8>) returns (out: seq<bv8>)
      requires |bfield| <= |right|
      ensures |out| == |diff| + |bfield| && out[..|diff|] == diff
      ensures PiecesOf(out[|diff|..]) == set p | p in PiecesOf(right) && p !in Pieces() && p < 8 * |bfield|
    {
      var left := bfield;
      out := diff;
      for i := 0 to |left|
        invariant |out| == |diff| + i && out[..|diff|] == diff
        invariant forall k :: 0 <= k < i ==> out[|diff| + k] == left[k] ^ (left[k] | right[k])
      {
        out := out + [left[i] ^ (left[i] | right[i])];
      }
      ghost var d := out[|diff|..];
      forall p: nat | p < 8 * |left|
        ensures Bit(d[p / 8], p % 8) <==> Bit(right[p / 8], p % 8) && !Bit(left[p / 8], p % 8)
      {
        assert d[p / 8] == out[|diff| + p / 8];
        DiffBit(left[p / 8], right[p / 8], p % 8);
      }
    }

    method Exists(pos: nat) returns (ret: bool)
      requires pos < 8 * |bfield|
      ensures ret <==> pos in Pieces()
    {
      var wholes, lftovr := pos / 8, pos % 8;
      var mask := (1 as bv8) << lftovr;
      MaskIsShift(lftovr);
      ClearBit(bfield[wholes], lftovr);
      ret := bfield[wholes] & mask != 0;
    }

    /** Test-and-set of one bit by byte and offset; true if this call set it. */
    method FlipAt(wholes: nat, lftover: nat) returns (ret: bool)
      requires wholes < |bfield| && lftover < 8
      modifies this
      ensures Pieces() == old(Pieces()) + {8 * wholes + lftover} && |bfield| == old(|bfield|)
      ensures ret <==> 8 * wholes + lftover !in old(Pieces())
    {
      hide Mask, PiecesOf;
      FlippedPieces(bfield, wholes, lftover);
      var mask := (1 as bv8) << lftover;
      MaskIsShift(lftover);
      ret := false;
      if bfield[wholes] & mask != mask {
        bfield := bfield[wholes := bfield[wholes] ^ mask];
        ret := true;
      }
    }

    method Flip(pcno: nat)
      requires pcno < 8 * |bfield|
      modifies this
      ensures Pieces() == old(Pieces()) + {pcno} && |bfield| == old(|bfield|)
    {
      hide Mask, PiecesOf;
      var wholes, lftover := pcno / 8, pcno % 8;
      FlippedPieces(bfield, wholes, lftover);
      var mask := (1 as bv8) << lftover;
      MaskIsShift(lftover);
      if bfield[wholes] & mask != mask {
        bfield := bfield[wholes := bfield[wholes] ^ mask];
      }
    }

    method Clone() returns (vec: seq<bv8>)
      ensures vec == bfield && PiecesOf(vec) == Pieces()
    {
      vec := bfield;
    }
  }
}
