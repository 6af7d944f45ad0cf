/** Earmarking by one thread that nobody interrupts: the loop over bytes and bits, and what its return value says. */
module Earmarking {
  import opened Bits
  import opened BitfieldModel
  import opened Invariants
  import Protocol
  import opened Steps

  /** Among the wanted pieces below `k`, the highest is not in `taken`: the last test-and-set so far was won. */
  ghost predicate LastWon(wanted: set<nat>, taken: set<nat>, k: nat) {
    LastTaken(wanted - taken, wanted, k)
  }

  /** What one uninterrupted pass does to the shared earmarks and to `diff`, and what it returns. */
  ghost predicate Earmarked(wanted: set<nat>, taken: set<nat>, taken': set<nat>, left: set<nat>, ret: bool, bits: nat) {
    && taken' == taken + wanted
    && left == wanted - taken
    && (ret <==> LastWon(wanted, taken, bits))
  }

  /** The highest wanted piece is not yet taken. */
  ghost predicate HighestFree(wanted: set<nat>, taken: set<nat>) {
    HighestTaken(wanted - taken, wanted)
  }

  /**
   The return value says whether any piece was won exactly when none was, or the highest wanted one was:
   when the field already had them all, or lacked that one.
   */
  lemma EarmarkReturnIff(wanted: set<nat>, taken: set<nat>, taken': set<nat>, left: set<nat>, ret: bool, bits: nat)
    requires Earmarked(wanted, taken, taken', left, ret, bits) && forall p :: p in wanted ==> p < bits
    ensures (ret <==> left != {}) <==>
      wanted <= taken || HighestFree(wanted, taken)
  {
    LastIsHighest(wanted - taken, wanted, bits);
    if wanted <= taken {
      assert left == {};
    } else {
      var x :| x in wanted && x !in taken;
      assert x in left;
    }
  }

  /** Wanting 0 and 1 when 1 is taken: piece 0 is won, and the return value says nothing was. */
  lemma EarmarkDropsWonPiece()
    ensures Earmarked({0, 1}, {1}, {0, 1}, {0}, false, 8)
  {
    assert {1} + {0, 1} == {0, 1} && {0, 1} - {1} == {0};
    var k: nat := 8;
    assert 1 in {0, 1} && 1 !in {0} && 1 < k;
  }

  /** The field the handlers share, and the earmark loop over it. */
  class NbrMap {
    const field: Bfield

    constructor (npcs: nat)
      ensures fresh(field) && |field.bfield| == npcs && field.Pieces() == {}
    {
      field := new Bfield.Earmarks(npcs);
    }

    method Earmark(node: Bfield, peer: seq<bv8>) returns (ret: bool, diff: seq<bv8>)
      requires |node.bfield| <= |peer| && |node.bfield| <= |field.bfield| && node != field
      modifies field
      ensures |diff| == |node.bfield| && |field.bfield| == old(|field.bfield|)
      ensures Earmarked(set p | p in PiecesOf(peer) && p !in node.Pieces() && p < 8 * |node.bfield|,
                        old(field.Pieces()), field.Pieces(), PiecesOf(diff), ret, 8 * |diff|)
    {
      diff := node.Diff(peer, []);
      assert diff[0..] == diff;
      ghost var wanted, taken := PiecesOf(diff), field.Pieces();
      ret := false;
      for i := 0 to |diff|
        invariant |diff| == |node.bfield| && |field.bfield| == old(|field.bfield|)
        invariant InLoop(wanted, taken, field.Pieces(), PiecesOf(diff), ret, 8 * i)
      {
        for j := 0 to 8
          invariant |diff| == |node.bfield| && |field.bfield| == old(|field.bfield|)
          invariant InLoop(wanted, taken, field.Pieces(), PiecesOf(diff), ret, 8 * i + j)
        {
          ret, diff := EarmarkBit(diff, i, j, ret, wanted, taken);
        }
      }
    }

    /** One round of the inner loop. */
    method EarmarkBit(before: seq<bv8>, i: nat, j: nat, last: bool, ghost wanted: set<nat>, ghost taken: set<nat>)
      returns (ret: bool, diff: seq<bv8>)
      requires i < |before| <= |field.bfield| && j < 8
      requires InLoop(wanted, taken, field.Pieces(), PiecesOf(before), last, 8 * i + j)
      modifies field
      ensures |diff| == |before| && |field.bfield| == old(|field.bfield|)
      ensures InLoop(wanted, taken, field.Pieces(), PiecesOf(diff), ret, 8 * i + j + 1)
    {
      hide PiecesOf, Mask, LastWon;
      ret, diff := last, before;
      Address(before, i, j);
      NextBit(wanted, taken, field.Pieces(), PiecesOf(before), last, 8 * i + j);
      var mask := (1 as bv8) << j;
      MaskIsShift(j);
      if diff[i] & mask == mask {
        ret := field.FlipAt(i, j);
        if !ret {
          diff := Cleared(diff, i, j);
        }
      }
    }
  }

  /** `diff[i] ^= mask` on a set bit. */
  function Cleared(v: seq<bv8>, i: nat, j: nat): (w: seq<bv8>)
    requires i < |v| && j < 8 && Bit(v[i], j)
    ensures |w| == |v| && PiecesOf(w) == PiecesOf(v) - {8 * i + j}
  {
    UnsetBit(v, i, j);
    v[i := v[i] ^ Mask(j)]
  }

  /** Bits below `k` have been dealt with. */
  ghost predicate InLoop(wanted: set<nat>, taken: set<nat>, now: set<nat>, left: set<nat>, ret: bool, k: nat) {
    && now == taken + (set p | p in wanted && p < k)
    && left == (set p | p in wanted && (k <= p || p !in taken))
    && (ret <==> LastWon(wanted, taken, k))
  }

  /** The three things a round may do at bit `k`. */
  lemma NextBit(wanted: set<nat>, taken: set<nat>, now: set<nat>, left: set<nat>, ret: bool, k: nat)
    requires InLoop(wanted, taken, now, left, ret, k)
    ensures k !in left ==> InLoop(wanted, taken, now, left, ret, k + 1)
    ensures k in left && k !in now ==> InLoop(wanted, taken, now + {k}, left, true, k + 1)
    ensures k in left && k in now ==> InLoop(wanted, taken, now + {k}, left - {k}, false, k + 1)
  {
    LastWonNext(wanted, taken, k);
    assert k in left <==> k in wanted;
    assert k in now <==> k in taken;
    assert forall p :: p in wanted && p < k + 1 <==> (p in wanted && p < k) || (k in wanted && p == k);
  }

  lemma LastWonNext(wanted: set<nat>, taken: set<nat>, k: nat)
    ensures k !in wanted ==> (LastWon(wanted, taken, k + 1) <==> LastWon(wanted, taken, k))
    ensures k in wanted ==> (LastWon(wanted, taken, k + 1) <==> k !in taken)
  {
    LastTakenNext(wanted - taken, wanted, k);
    if k in wanted && k !in taken {
      assert wanted - taken + {k} == wanted - taken;
    }
  }

  /** The protocol's rounds from bit `t.pc.next` up to `upto`, with no other thread in between. */
  ghost function MarkUpto(n: Protocol.Node, t: Protocol.Thread, upto: nat): (r: (Protocol.Node, Protocol.Thread))
    requires t.pc.Marking?
    decreases upto - t.pc.next
  {
    if t.pc.next >= upto then (n, t) else
      var (n', t') := Protocol.MarkBit(n, t, t.pc.next);
      MarkUpto(n', t', upto)
  }

  /** All the loop leaves alone. */
  lemma {:induction false} MarkUptoFrame(cfg: Protocol.Config, n: Protocol.Node, t: Protocol.Thread, upto: nat)
    requires t.pc.Marking? && t.pc.next <= upto
    ensures var (n', t') := MarkUpto(n, t, upto);
      && n' == n.(mark := n'.mark) && t'.pc == Protocol.Marking(upto)
      && t' == t.(pc := t'.pc, last := t'.last, diff := t'.diff, granted := t'.granted)
    decreases upto - t.pc.next
  {
    hide Protocol.MarkBit;
    if t.pc.next < upto {
      MarkSilent(cfg, n, t);
      var (n1, t1) := Protocol.MarkBit(n, t, t.pc.next);
      MarkUptoFrame(cfg, n1, t1, upto);
    }
  }

  /** Run without interruption, the protocol's rounds do what `NbrMap.Earmark` does. */
  lemma UninterruptedMarking(n: Protocol.Node, t: Protocol.Thread, bits: nat)
    requires t.pc == Protocol.Marking(0) && !t.last && forall p :: p in t.diff ==> p < bits
    ensures var (n', t') := MarkUpto(n, t, bits); Earmarked(t.diff, n.mark, n'.mark, t'.diff, t'.last, bits)
  {
    MarkLoop(n, t, bits, t.diff, n.mark);
    var (n', t') := MarkUpto(n, t, bits);
    assert n'.mark == n.mark + t.diff && t'.diff == t.diff - n.mark;
  }

  lemma {:induction false} MarkLoop(n: Protocol.Node, t: Protocol.Thread, bits: nat, wanted: set<nat>, taken: set<nat>)
    requires t.pc.Marking? && t.pc.next <= bits && InLoop(wanted, taken, n.mark, t.diff, t.last, t.pc.next)
    ensures var (n', t') := MarkUpto(n, t, bits);
      t'.pc == Protocol.Marking(bits) && InLoop(wanted, taken, n'.mark, t'.diff, t'.last, bits)
    decreases bits - t.pc.next
  {
    hide LastWon;
    if t.pc.next < bits {
      NextBit(wanted, taken, n.mark, t.diff, t.last, t.pc.next);
      var (n', t') := Protocol.MarkBit(n, t, t.pc.next);
      assert t.pc.next in n.mark ==> n.mark + {t.pc.next} == n.mark;
      MarkLoop(n', t', bits, wanted, taken);
    }
  }
}
