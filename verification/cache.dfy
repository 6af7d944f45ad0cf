/** The write-through LRU piece cache over the shared file: its state as a value, and what each operation does to it. */
module CacheModel {
  import opened CStrings
  import opened Lru

  /** One cached buffer and the file offset it caches. */
  datatype Access = Access(pos: int, buf: Bytes)

  /** The recency deque (least recent first) and the map from file offset to deque index. */
  datatype Index = Index(cvec: seq<Access>, cmap: map<int, int>)

  datatype Store = Store(file: Bytes, index: Index)

  /** `cmap` is the exact inverse of the positions of `cvec`. */
  ghost predicate Exact(c: Index) {
    && (forall q :: q in c.cmap ==> 0 <= c.cmap[q] < |c.cvec| && c.cvec[c.cmap[q]].pos == q)
    && (forall i :: 0 <= i < |c.cvec| ==> c.cvec[i].pos in c.cmap && c.cmap[c.cvec[i].pos] == i)
  }

  function Positions(c: Index): (s: seq<int>)
    ensures |s| == |c.cvec| && forall i :: 0 <= i < |s| ==> s[i] == c.cvec[i].pos
  {
    seq(|c.cvec|, i requires 0 <= i < |c.cvec| => c.cvec[i].pos)
  }

  /** The accessed entry moves to the back and the indices above its old place go down by one. */
  function MoveToBack(c: Index, pos: int): Index
    requires Mapped(c, pos)
  {
    var k := c.cmap[pos];
    Index(Erase(c.cvec, k) + [c.cvec[k]],
          (map q | q in c.cmap :: if c.cmap[q] > k then c.cmap[q] - 1 else c.cmap[q])[pos := |c.cvec| - 1])
  }

  /** A new entry goes to the back; a full deque first loses its front, and every index goes down by one. */
  function Insert(c: Index, pos: int, buf: Bytes, maxsz: nat): Index
    requires 0 < maxsz
  {
    var kept := if |c.cvec| == maxsz then map q | q in c.cmap && q != c.cvec[0].pos :: c.cmap[q] - 1 else c.cmap;
    var cvec := Admit(c.cvec, Access(pos, buf), maxsz);
    Index(cvec, kept[pos := |cvec| - 1])
  }

  /** The offset is mapped (the range test only makes `Update` total: it holds of every exact index). */
  predicate Mapped(c: Index, pos: int) {
    pos in c.cmap && 0 <= c.cmap[pos] < |c.cvec|
  }

  /** `update_cache`, with the hit element moved and the remaining indices renumbered. */
  function Update(c: Index, pos: int, buf: Bytes, maxsz: nat): Index
    requires 0 < maxsz
  {
    if Mapped(c, pos) then MoveToBack(c, pos) else Insert(c, pos, buf, maxsz)
  }

  lemma HeldIffMapped(c: Index, pos: int)
    requires Exact(c)
    ensures pos in Positions(c) <==> pos in c.cmap
  {
    if pos in c.cmap {
      assert Positions(c)[c.cmap[pos]] == pos;
    }
  }

  lemma MoveToBackExact(c: Index, pos: int)
    requires Exact(c) && pos in c.cmap
    ensures Exact(MoveToBack(c, pos))
    ensures Positions(MoveToBack(c, pos)) == Erase(Positions(c), c.cmap[pos]) + [pos]
  {
    var k, n, c' := c.cmap[pos], |c.cvec|, MoveToBack(c, pos);
    forall i | 0 <= i < n - 1
      ensures c'.cvec[i] == c.cvec[if i < k then i else i + 1] && c'.cvec[i].pos != pos
      ensures c'.cvec[i].pos in c'.cmap && c'.cmap[c'.cvec[i].pos] == i
    {
      var o := if i < k then i else i + 1;
      assert c.cmap[c.cvec[o].pos] == o;
    }
    assert c'.cvec[n - 1].pos == pos;
    forall q | q in c'.cmap ensures 0 <= c'.cmap[q] < n && c'.cvec[c'.cmap[q]].pos == q {
      if q != pos {
        assert c.cvec[c.cmap[q]].pos == q && c.cmap[q] != k;
      }
    }
    assert Positions(c') == Erase(Positions(c), k) + [pos];
  }

  lemma InsertExact(c: Index, pos: int, buf: Bytes, maxsz: nat)
    requires Exact(c) && pos !in c.cmap && |c.cvec| <= maxsz && 0 < maxsz
    ensures Exact(Insert(c, pos, buf, maxsz))
    ensures Positions(Insert(c, pos, buf, maxsz)) == Admit(Positions(c), pos, maxsz)
  {
    if |c.cvec| == maxsz {
      InsertFullExact(c, pos, buf, maxsz);
    } else {
      var c', n := Insert(c, pos, buf, maxsz), |c.cvec|;
      assert forall i :: 0 <= i < n ==> c'.cvec[i] == c.cvec[i];
      assert c'.cvec[n].pos == pos;
      assert Positions(c') == Positions(c) + [pos];
    }
  }

  lemma InsertFullExact(c: Index, pos: int, buf: Bytes, maxsz: nat)
    requires Exact(c) && pos !in c.cmap && |c.cvec| == maxsz && 0 < maxsz
    ensures Exact(Insert(c, pos, buf, maxsz))
    ensures Positions(Insert(c, pos, buf, maxsz)) == Admit(Positions(c), pos, maxsz)
  {
    var c', n := Insert(c, pos, buf, maxsz), maxsz;
    forall i | 0 <= i < n - 1
      ensures c'.cvec[i] == c.cvec[i + 1] && c'.cvec[i].pos in c'.cmap && c'.cmap[c'.cvec[i].pos] == i
    {
      assert c.cmap[c.cvec[i + 1].pos] == i + 1;
    }
    assert c'.cvec[n - 1].pos == pos;
    forall q | q in c'.cmap ensures 0 <= c'.cmap[q] < n && c'.cvec[c'.cmap[q]].pos == q {
      if q != pos {
        assert c.cvec[c.cmap[q]].pos == q;
      }
    }
    assert Positions(c') == Admit(Positions(c), pos, maxsz);
  }

  /** One access keeps the index exact and the positions the most recent of the trace, in order. */
  lemma UpdateKeepsRecent(c: Index, t: seq<int>, pos: int, buf: Bytes, maxsz: nat)
    requires Exact(c) && Recent(Positions(c), t, maxsz) && 0 < maxsz
    ensures var c' := Update(c, pos, buf, maxsz); Exact(c') && Recent(Positions(c'), t + [pos], maxsz)
  {
    HeldIffMapped(c, pos);
    if pos in c.cmap {
      MoveToBackExact(c, pos);
      HitKeepsRecent(Positions(c), t, maxsz, c.cmap[pos]);
    } else {
      InsertExact(c, pos, buf, maxsz);
      MissKeepsRecent(Positions(c), t, maxsz, pos);
    }
  }

  // ----- update_cache as it is written -----

  /** Every mapped index is within the deque (all that the code as written guarantees). */
  ghost predicate InRange(c: Index) {
    forall q :: q in c.cmap ==> 0 <= c.cmap[q] < |c.cvec|
  }

  /**
   `update_cache` as written: a hit erases the accessed slot but pushes the front element, and neither a hit
   nor an eviction renumbers the entries left behind.
   */
  function UpdateAsWritten(c: Index, pos: int, buf: Bytes, maxsz: nat): (c': Index)
    requires InRange(c) && 0 < maxsz
    ensures InRange(c')
  {
    if pos in c.cmap then
      var rest := Erase(c.cvec, c.cmap[pos]);
      Index(rest + [c.cvec[0]], (c.cmap - {pos})[pos := |rest|])
    else if |c.cvec| == maxsz then
      var rest := c.cvec[1..];
      Index(rest + [Access(pos, buf)], (c.cmap - {c.cvec[0].pos})[pos := |rest|])
    else
      Index(c.cvec + [Access(pos, buf)], c.cmap[pos := |c.cvec|])
  }

  /** There is nothing to renumber: a lone entry, or a new one with room to spare. */
  predicate NothingToRenumber(c: Index, pos: int, maxsz: nat) {
    |c.cvec| == 1 || (pos !in c.cmap && |c.cvec| < maxsz)
  }

  /** One step of the code as written is right exactly when there is nothing to renumber. */
  lemma AsWrittenExactIff(c: Index, pos: int, buf: Bytes, maxsz: nat)
    requires Exact(c) && |c.cvec| <= maxsz && 0 < maxsz
    ensures Exact(UpdateAsWritten(c, pos, buf, maxsz)) <==> NothingToRenumber(c, pos, maxsz)
    ensures UpdateAsWritten(c, pos, buf, maxsz) == Update(c, pos, buf, maxsz) <==> NothingToRenumber(c, pos, maxsz)
  {
    var w, u := UpdateAsWritten(c, pos, buf, maxsz), Update(c, pos, buf, maxsz);
    if pos in c.cmap {
      MoveToBackExact(c, pos);
    } else {
      InsertExact(c, pos, buf, maxsz);
    }
    if NothingToRenumber(c, pos, maxsz) {
      assert w.cvec == u.cvec;
      if pos in c.cmap || |c.cvec| == maxsz {
        assert c.cvec[0].pos in c.cmap;
        assert forall q :: q in c.cmap ==> c.cmap[q] == 0 && c.cvec[0].pos == q;
        assert c.cmap == map[c.cvec[0].pos := 0];
        assert w.cmap == map[pos := 0];
        assert u.cmap == map[pos := 0];
      }
    } else {
      StaleEntry(c, pos, buf, maxsz);
    }
  }

  /** Every hit finds its own position in the slot it is mapped to. */
  ghost predicate HitsOwn(c: Index)
    requires InRange(c)
  {
    forall q :: q in c.cmap ==> c.cvec[c.cmap[q]].pos == q
  }

  /** Otherwise some position is mapped to a slot that holds another one. */
  lemma StaleEntry(c: Index, pos: int, buf: Bytes, maxsz: nat)
    requires Exact(c) && |c.cvec| <= maxsz && 0 < maxsz && !NothingToRenumber(c, pos, maxsz)
    ensures !HitsOwn(UpdateAsWritten(c, pos, buf, maxsz))
  {
    var w := UpdateAsWritten(c, pos, buf, maxsz);
    var first, second := c.cvec[0].pos, c.cvec[1].pos;
    assert c.cmap[first] == 0 && c.cmap[second] == 1;
    if pos in c.cmap && c.cmap[pos] != 0 {
      assert w.cvec[w.cmap[pos]].pos == first;
    } else {
      assert w.cvec[0] == c.cvec[1] && w.cmap[second] == 1;
      assert |c.cvec| > 2 ==> w.cvec[1] == c.cvec[2] && c.cmap[c.cvec[2].pos] == 2;
    }
  }

  /**
   What a hit leaves in the code as written: the accessed entry is lost, the front is there twice, and the other
   positions are mapped where they were.
   */
  lemma HitAsWritten(c: Index, pos: int, buf: Bytes, maxsz: nat)
    requires InRange(c) && 0 < maxsz && pos in c.cmap
    ensures var w := UpdateAsWritten(c, pos, buf, maxsz);
      && multiset(w.cvec) == multiset(c.cvec) - multiset{c.cvec[c.cmap[pos]]} + multiset{c.cvec[0]}
      && w.cvec[..|w.cvec| - 1] == Erase(c.cvec, c.cmap[pos]) && w.cvec[|w.cvec| - 1] == c.cvec[0]
      && w.cmap == c.cmap[pos := |c.cvec| - 1]
  {
    ErasedElements(c.cvec, c.cmap[pos], c.cvec[0]);
    hide Erase;
    assert (c.cmap - {pos})[pos := |c.cvec| - 1] == c.cmap[pos := |c.cvec| - 1];
  }

  /** What a miss leaves: the new entry at the back, the front gone if there was no room, nothing renumbered. */
  lemma MissAsWritten(c: Index, pos: int, buf: Bytes, maxsz: nat)
    requires InRange(c) && 0 < maxsz && pos !in c.cmap
    ensures var w := UpdateAsWritten(c, pos, buf, maxsz);
      && w.cvec == Admit(c.cvec, Access(pos, buf), maxsz)
      && w.cmap[pos] == |w.cvec| - 1
      && w.cmap.Keys == c.cmap.Keys - (if |c.cvec| == maxsz then {c.cvec[0].pos} else {}) + {pos}
      && forall q :: q in w.cmap && q != pos ==> w.cmap[q] == c.cmap[q]
  {
  }

  // ----- whole runs of accesses -----

  const EMPTY := Index([], map[])

  /** The positions of a sequence of accesses: the trace. */
  function Trace(accs: seq<Access>): (t: seq<int>)
    ensures |t| == |accs| && forall i :: 0 <= i < |t| ==> t[i] == accs[i].pos
  {
    seq(|accs|, i requires 0 <= i < |accs| => accs[i].pos)
  }

  /** The index after a sequence of accesses. */
  ghost function Run(accs: seq<Access>, maxsz: nat): (c: Index)
    requires 0 < maxsz
    ensures Exact(c) && Recent(Positions(c), Trace(accs), maxsz)
  {
    if accs == [] then EMPTY else
      var before, a := Run(accs[..|accs| - 1], maxsz), accs[|accs| - 1];
      assert Trace(accs) == Trace(accs[..|accs| - 1]) + [a.pos];
      UpdateKeepsRecent(before, Trace(accs[..|accs| - 1]), a.pos, a.buf, maxsz);
      Update(before, a.pos, a.buf, maxsz)
  }

  ghost function RunAsWritten(accs: seq<Access>, maxsz: nat): (c: Index)
    requires 0 < maxsz
    ensures InRange(c)
  {
    if accs == [] then EMPTY
    else UpdateAsWritten(RunAsWritten(accs[..|accs| - 1], maxsz), accs[|accs| - 1].pos, accs[|accs| - 1].buf, maxsz)
  }

  /**
   Access `n` of the trace finds nothing to renumber: only one position has been held so far, or the position is
   new and fewer than `maxsz` distinct ones precede it.
   */
  ghost predicate EasyAccess(t: seq<int>, n: nat, maxsz: nat)
    requires n < |t|
  {
    var seen := |Touched(t[..n], 0)|;
    Min(seen, maxsz) == 1 || (t[n] !in t[..n] && seen < maxsz)
  }

  /** How many positions are held: all of them while they fit. */
  lemma RecentSize(s: seq<int>, t: seq<int>, k: nat)
    requires Recent(s, t, k)
    ensures |s| == Min(|Touched(t, 0)|, k)
  {
    SizeOfDistinct(s, 0);
    SubsetSize(Touched(s, 0), Touched(t, 0));
    if |s| < k {
      forall x | x in Touched(t, 0) ensures x in Touched(s, 0) {
        assert x in s;
      }
      SubsetSize(Touched(t, 0), Touched(s, 0));
    }
  }

  lemma EasyIffNothingToRenumber(accs: seq<Access>, n: nat, maxsz: nat)
    requires n < |accs| && 0 < maxsz
    ensures NothingToRenumber(Run(accs[..n], maxsz), accs[n].pos, maxsz) <==> EasyAccess(Trace(accs), n, maxsz)
  {
    var c, t := Run(accs[..n], maxsz), Trace(accs)[..n];
    assert Trace(accs[..n]) == t;
    RecentSize(Positions(c), t, maxsz);
    HeldIffMapped(c, accs[n].pos);
  }

  lemma NextAgreesIffEasy(accs: seq<Access>, n: nat, maxsz: nat)
    requires n < |accs| && 0 < maxsz && RunAsWritten(accs[..n], maxsz) == Run(accs[..n], maxsz)
    ensures RunAsWritten(accs[..n + 1], maxsz) == Run(accs[..n + 1], maxsz) <==> EasyAccess(Trace(accs), n, maxsz)
  {
    assert accs[..n + 1][..n] == accs[..n];
    RecentSize(Positions(Run(accs[..n], maxsz)), Trace(accs[..n]), maxsz);
    AsWrittenExactIff(Run(accs[..n], maxsz), accs[n].pos, accs[n].buf, maxsz);
    EasyIffNothingToRenumber(accs, n, maxsz);
  }

  lemma {:induction false} EasyRunsAgree(accs: seq<Access>, n: nat, maxsz: nat)
    requires n <= |accs| && 0 < maxsz
    requires forall m :: 0 <= m < n ==> EasyAccess(Trace(accs), m, maxsz)
    ensures RunAsWritten(accs[..n], maxsz) == Run(accs[..n], maxsz)
  {
    if n > 0 {
      EasyRunsAgree(accs, n - 1, maxsz);
      NextAgreesIffEasy(accs, n - 1, maxsz);
    }
  }

  /**
   Over a whole run the code as written agrees with least-recently-used caching at every point
   exactly when every access of the trace is an easy one.
   */
  lemma RunAsWrittenIff(accs: seq<Access>, maxsz: nat)
    requires 0 < maxsz
    ensures (forall n :: 0 <= n <= |accs| ==> RunAsWritten(accs[..n], maxsz) == Run(accs[..n], maxsz))
       <==> (forall n :: 0 <= n < |accs| ==> EasyAccess(Trace(accs), n, maxsz))
  {
    if forall n :: 0 <= n < |accs| ==> EasyAccess(Trace(accs), n, maxsz) {
      forall n | 0 <= n <= |accs| ensures RunAsWritten(accs[..n], maxsz) == Run(accs[..n], maxsz) {
        EasyRunsAgree(accs, n, maxsz);
      }
    }
    if forall n :: 0 <= n <= |accs| ==> RunAsWritten(accs[..n], maxsz) == Run(accs[..n], maxsz) {
      forall n | 0 <= n < |accs| ensures EasyAccess(Trace(accs), n, maxsz) {
        NextAgreesIffEasy(accs, n, maxsz);
      }
    }
  }

  lemma NextHitsOwnIffEasy(accs: seq<Access>, n: nat, maxsz: nat)
    requires n < |accs| && 0 < maxsz && RunAsWritten(accs[..n], maxsz) == Run(accs[..n], maxsz)
    ensures HitsOwn(RunAsWritten(accs[..n + 1], maxsz)) <==> EasyAccess(Trace(accs), n, maxsz)
  {
    NextAgreesIffEasy(accs, n, maxsz);
    assert accs[..n + 1][..n] == accs[..n];
    RecentSize(Positions(Run(accs[..n], maxsz)), Trace(accs[..n]), maxsz);
    EasyIffNothingToRenumber(accs, n, maxsz);
    if !EasyAccess(Trace(accs), n, maxsz) {
      StaleEntry(Run(accs[..n], maxsz), accs[n].pos, accs[n].buf, maxsz);
    }
  }

  lemma {:induction false} HitsOwnWhileEasy(accs: seq<Access>, n: nat, maxsz: nat)
    requires n <= |accs| && 0 < maxsz
    requires forall m :: 0 <= m <= |accs| ==> HitsOwn(RunAsWritten(accs[..m], maxsz))
    ensures forall m :: 0 <= m < n ==> EasyAccess(Trace(accs), m, maxsz)
  {
    hide EasyAccess, HitsOwn, RunAsWritten, Run;
    if n > 0 {
      assert HitsOwn(RunAsWritten(accs[..n - 1 + 1], maxsz));
      HitsOwnWhileEasy(accs, n - 1, maxsz);
      EasyRunsAgree(accs, n - 1, maxsz);
      NextHitsOwnIffEasy(accs, n - 1, maxsz);
    }
  }

  /**
   Over a whole run of the code as written every hit, at every point, finds its own entry in the slot it is mapped to
   exactly when every access of the trace is an easy one.
   */
  lemma HitsAsWrittenIff(accs: seq<Access>, maxsz: nat)
    requires 0 < maxsz
    ensures (forall n :: 0 <= n <= |accs| ==> HitsOwn(RunAsWritten(accs[..n], maxsz)))
       <==> (forall n :: 0 <= n < |accs| ==> EasyAccess(Trace(accs), n, maxsz))
  {
    hide EasyAccess;
    if forall n :: 0 <= n < |accs| ==> EasyAccess(Trace(accs), n, maxsz) {
      forall n | 0 <= n <= |accs| ensures HitsOwn(RunAsWritten(accs[..n], maxsz)) {
        EasyRunsAgree(accs, n, maxsz);
      }
    }
    if forall n :: 0 <= n <= |accs| ==> HitsOwn(RunAsWritten(accs[..n], maxsz)) {
      HitsOwnWhileEasy(accs, |accs|, maxsz);
    }
  }

  /** With room for two, fetching pieces at 0, 8 and 0 again maps offset 8 to the buffer of offset 0. */
  lemma AsWrittenServesWrongPiece(a: Bytes, b: Bytes)
    requires a != b
    ensures var c := RunAsWritten([Access(0, a), Access(8, b), Access(0, a)], 2);
      8 in c.cmap && c.cvec[c.cmap[8]].buf == a != b
  {
    var accs := [Access(0, a), Access(8, b), Access(0, a)];
    assert accs[..2] == [Access(0, a), Access(8, b)] && accs[..2][..1] == [Access(0, a)] && accs[..2][..1][..0] == [];
    assert RunAsWritten(accs[..2][..1], 2) == Index([Access(0, a)], map[0 := 0]);
    assert RunAsWritten(accs[..2], 2) == Index([Access(0, a), Access(8, b)], map[0 := 0, 8 := 1]);
  }

  lemma UpdateEntries(c: Index, pos: int, buf: Bytes, maxsz: nat)
    requires Exact(c) && |c.cvec| <= maxsz && 0 < maxsz
    ensures var c' := Update(c, pos, buf, maxsz);
      && (forall a :: a in c'.cvec ==> a in c.cvec || (pos !in c.cmap && a == Access(pos, buf)))
      && c'.cmap.Keys <= c.cmap.Keys + {pos} && pos in c'.cmap && |c'.cvec| <= maxsz
  {
  }

  // ----- the backing file -----

  /** The bytes the file holds of the piece at `pos`; a short last piece has fewer than `pcsz`. */
  function Region(file: Bytes, pos: nat, pcsz: nat): Bytes {
    file[Min(pos, |file|)..Min(pos + pcsz, |file|)]
  }

  /** `lseek` then `write`: past the end of the file the gap fills with zeros. */
  function WriteAt(file: Bytes, pos: nat, data: Bytes): Bytes {
    var f := if |file| < pos then file + seq(pos - |file|, _ => 0) else file;
    f[..pos] + data + (if |f| > pos + |data| then f[pos + |data|..] else [])
  }

  /** Enough of the piece is in the file for its string to be read back: all of it, or up to its NUL. */
  predicate Readable(region: Bytes, pcsz: nat) {
    |region| == pcsz || Terminated(region)
  }

  /** `lseek` then `read` into a fresh buffer: the region, then whatever the buffer held. */
  predicate ReadInto(loaded: Bytes, file: Bytes, pos: nat, pcsz: nat) {
    |loaded| == pcsz && Region(file, pos, pcsz) <= loaded
  }

  lemma ReadView(loaded: Bytes, file: Bytes, pos: nat, pcsz: nat)
    requires ReadInto(loaded, file, pos, pcsz) && Readable(Region(file, pos, pcsz), pcsz)
    ensures View(loaded) == View(Region(file, pos, pcsz))
  {
    var r := Region(file, pos, pcsz);
    if |r| == pcsz {
      assert loaded == r;
    } else {
      ViewExtends(r, loaded);
    }
  }

  /** `get_pos`. */
  function Pos(p: nat, pcsz: nat): nat {
    pcsz * p
  }

  /** The first piece starts the file, and each piece starts where the one before it ends. */
  lemma PosNext(p: nat, pcsz: nat)
    ensures Pos(0, pcsz) == 0 && Pos(p + 1, pcsz) == Pos(p, pcsz) + pcsz
  {
  }

  lemma {:induction false} PosMonotone(p: nat, q: nat, pcsz: nat)
    requires p <= q
    ensures Pos(p, pcsz) <= Pos(q, pcsz)
    decreases q
  {
    hide Pos;
    if p < q {
      PosMonotone(p, q - 1, pcsz);
      PosNext(q - 1, pcsz);
    }
  }

  /** Distinct pieces occupy disjoint ranges of the file. */
  lemma DisjointRanges(p: nat, q: nat, pcsz: nat)
    requires p != q
    ensures Pos(p, pcsz) + pcsz <= Pos(q, pcsz) || Pos(q, pcsz) + pcsz <= Pos(p, pcsz)
  {
    hide Pos;
    PosNext(p, pcsz);
    PosNext(q, pcsz);
    if p < q {
      PosMonotone(p + 1, q, pcsz);
    } else {
      PosMonotone(q + 1, p, pcsz);
    }
  }

  /** The number of pieces, as the node's constructor computes it. */
  function NumPieces(fsz: nat, pcsz: nat): nat
    requires 0 < pcsz
  {
    if fsz % pcsz != 0 then fsz / pcsz + 1 else fsz / pcsz
  }

  /** It is the least number of pieces that cover the file. */
  lemma PiecesCover(fsz: nat, pcsz: nat, k: nat)
    requires 0 < pcsz
    ensures fsz <= Pos(k, pcsz) <==> NumPieces(fsz, pcsz) <= k
  {
    var q := fsz / pcsz;
    assert fsz == pcsz * q + fsz % pcsz;
    PosNext(q, pcsz);
    if k < q {
      PosMonotone(k + 1, q, pcsz);
      PosNext(k, pcsz);
    } else if k > q {
      PosMonotone(q + 1, k, pcsz);
    }
  }

  /** The first `n` pieces of a file, one after the other. */
  function Pieces(file: Bytes, pcsz: nat, n: nat): Bytes {
    if n == 0 then [] else Pieces(file, pcsz, n - 1) + Region(file, Pos(n - 1, pcsz), pcsz)
  }

  lemma {:induction false} PiecesPrefix(file: Bytes, pcsz: nat, n: nat)
    ensures Pieces(file, pcsz, n) == file[..Min(Pos(n, pcsz), |file|)]
  {
    hide Pos;
    if n == 0 {
      PosNext(0, pcsz);
    } else {
      PiecesPrefix(file, pcsz, n - 1);
      PosNext(n - 1, pcsz);
      var a, b := Min(Pos(n - 1, pcsz), |file|), Min(Pos(n, pcsz), |file|);
      assert file[..a] + file[a..b] == file[..b];
    }
  }

  /** The pieces of a file, in order, are the file. */
  lemma PiecesTile(file: Bytes, pcsz: nat)
    requires 0 < pcsz
    ensures Pieces(file, pcsz, NumPieces(|file|, pcsz)) == file
  {
    PiecesPrefix(file, pcsz, NumPieces(|file|, pcsz));
    PiecesCover(|file|, pcsz, NumPieces(|file|, pcsz));
    assert file[..|file|] == file;
  }

  /** Every byte of a file lies in exactly one of its pieces. */
  lemma ByteInOnePiece(fsz: nat, pcsz: nat, i: nat) returns (p: nat)
    requires 0 < pcsz && i < fsz
    ensures p < NumPieces(fsz, pcsz)
    ensures forall q: nat :: Pos(q, pcsz) <= i < Pos(q, pcsz) + pcsz <==> q == p
  {
    p := i / pcsz;
    assert i == pcsz * p + i % pcsz;
    assert Pos(p, pcsz) <= i < Pos(p, pcsz) + pcsz;
    PiecesCover(fsz, pcsz, p);
    forall q: nat | q != p ensures !(Pos(q, pcsz) <= i < Pos(q, pcsz) + pcsz) {
      DisjointRanges(p, q, pcsz);
    }
  }

  /** What is in the file after a write: the data, and elsewhere what was there; zeros in a gap past the old end. */
  lemma WrittenBytes(file: Bytes, pos: nat, data: Bytes)
    ensures var f := WriteAt(file, pos, data);
      && |f| == (if |file| < pos + |data| then pos + |data| else |file|)
      && forall i :: 0 <= i < |f| ==>
           f[i] == if pos <= i < pos + |data| then data[i - pos] else if i < |file| then file[i] else 0
  {
  }

  lemma WriteWritten(file: Bytes, pos: nat, data: Bytes)
    ensures Region(WriteAt(file, pos, data), pos, |data|) == data
  {
  }

  /** A write leaves the string of every disjoint readable piece alone. */
  lemma WriteElsewhere(file: Bytes, pos: nat, data: Bytes, at: nat)
    requires pos + |data| <= at || at + |data| <= pos
    requires Readable(Region(file, at, |data|), |data|)
    ensures var r := Region(WriteAt(file, pos, data), at, |data|);
      && Readable(r, |data|) && View(r) == View(Region(file, at, |data|))
      && (Terminated(Region(file, at, |data|)) ==> Terminated(r))
  {
    var before, after := Region(file, at, |data|), Region(WriteAt(file, pos, data), at, |data|);
    var f := WriteAt(file, pos, data);
    assert |file| <= |f|;
    forall i | 0 <= i < |before| ensures i < |after| && after[i] == before[i] {
      assert before[i] == file[at + i] == f[at + i] == after[i];
    }
    assert before <= after;
    if |before| == |data| {
      assert after == before;
    } else {
      ViewExtends(before, after);
    }
  }

  // ----- get and put -----

  lemma PosInjective(p: nat, q: nat, pcsz: nat)
    requires 0 < pcsz && Pos(p, pcsz) == Pos(q, pcsz)
    ensures p == q
  {
    if p != q {
      DisjointRanges(p, q, pcsz);
    }
  }

  /** A cached buffer holds the same string as its region of the file. */
  ghost predicate Agrees(a: Access, file: Bytes, pcsz: nat) {
    && (exists p: nat :: a.pos == Pos(p, pcsz))
    && |a.buf| == pcsz
    && Readable(Region(file, a.pos, pcsz), pcsz)
    && View(a.buf) == View(Region(file, a.pos, pcsz))
  }

  ghost predicate Coherent(st: Store, pcsz: nat, maxsz: nat) {
    && 0 < pcsz && 0 < maxsz
    && Exact(st.index) && |st.index.cvec| <= maxsz
    && forall a :: a in st.index.cvec ==> Agrees(a, st.file, pcsz)
  }

  /** The buffer `get` serves: the cached one on a hit, else the one just loaded from the file. */
  function Served(st: Store, pos: int, loaded: Bytes): Bytes {
    if Mapped(st.index, pos) then st.index.cvec[st.index.cmap[pos]].buf else loaded
  }

  /** The state after `get(p)`. */
  function Get(st: Store, p: nat, loaded: Bytes, pcsz: nat, maxsz: nat): Store
    requires 0 < maxsz
  {
    st.(index := Update(st.index, Pos(p, pcsz), loaded, maxsz))
  }

  /** The state after `put(p, piece)`, which caches `copy`. */
  function Put(st: Store, p: nat, piece: Bytes, copy: Bytes, pcsz: nat, maxsz: nat): Store
    requires 0 < maxsz
  {
    Store(WriteAt(st.file, Pos(p, pcsz), piece), Update(st.index, Pos(p, pcsz), copy, maxsz))
  }

  /**
   Hit or miss, `get` serves the string of the piece's region of the file and the cache stays in agreement, exactly
   when that string can be read back; of a short region without a NUL it serves the bytes and whatever follows them.
   */
  lemma GetServesFile(st: Store, p: nat, loaded: Bytes, pcsz: nat, maxsz: nat)
    requires Coherent(st, pcsz, maxsz)
    requires Pos(p, pcsz) !in st.index.cmap ==> ReadInto(loaded, st.file, Pos(p, pcsz), pcsz)
    ensures var r := Region(st.file, Pos(p, pcsz), pcsz);
      if Readable(r, pcsz) then View(Served(st, Pos(p, pcsz), loaded)) == View(r)
      else r <= View(Served(st, Pos(p, pcsz), loaded))
    ensures Coherent(Get(st, p, loaded, pcsz, maxsz), pcsz, maxsz)
       <==> Readable(Region(st.file, Pos(p, pcsz), pcsz), pcsz)
  {
    var pos := Pos(p, pcsz);
    UpdateEntries(st.index, pos, loaded, maxsz);
    UpdateEntryAt(st.index, pos, loaded, maxsz);
    EntriesAt(Update(st.index, pos, loaded, maxsz), pos);
    if pos in st.index.cmap {
      EntriesAt(st.index, pos);
    } else if Readable(Region(st.file, pos, pcsz), pcsz) {
      ReadView(loaded, st.file, pos, pcsz);
    } else {
      TextBegins(Region(st.file, pos, pcsz), loaded);
    }
    hide Region, Exact, Update, View;
  }

  /** A put leaves every other readable piece of the file, and every buffer cached for another, as they were. */
  lemma PutElsewhere(st: Store, p: nat, piece: Bytes, pcsz: nat, q: nat)
    requires |piece| == pcsz && q != p && Readable(Region(st.file, Pos(q, pcsz), pcsz), pcsz)
    ensures var r := Region(WriteAt(st.file, Pos(p, pcsz), piece), Pos(q, pcsz), pcsz);
      && Readable(r, pcsz) && View(r) == View(Region(st.file, Pos(q, pcsz), pcsz))
      && (Terminated(Region(st.file, Pos(q, pcsz), pcsz)) ==> Terminated(r))
  {
    DisjointRanges(p, q, pcsz);
    WriteElsewhere(st.file, Pos(p, pcsz), piece, Pos(q, pcsz));
  }

  /** A put leaves every buffer cached for another piece in agreement with the file. */
  lemma PutOthersAgree(st: Store, p: nat, piece: Bytes, pcsz: nat, a: Access)
    requires |piece| == pcsz && Agrees(a, st.file, pcsz) && a.pos != Pos(p, pcsz)
    ensures Agrees(a, WriteAt(st.file, Pos(p, pcsz), piece), pcsz)
  {
    var q: nat :| a.pos == Pos(q, pcsz);
    PutElsewhere(st, p, piece, pcsz, q);
  }

  lemma EntriesAt(c: Index, pos: int)
    requires Exact(c) && pos in c.cmap
    ensures c.cvec[c.cmap[pos]] in c.cvec
    ensures forall a :: a in c.cvec && a.pos == pos ==> a == c.cvec[c.cmap[pos]]
  {
  }

  lemma UpdateEntryAt(c: Index, pos: int, buf: Bytes, maxsz: nat)
    requires Exact(c) && |c.cvec| <= maxsz && 0 < maxsz
    ensures var c' := Update(c, pos, buf, maxsz);
      Exact(c') && pos in c'.cmap && c'.cvec[c'.cmap[pos]].buf == if pos in c.cmap then c.cvec[c.cmap[pos]].buf else buf
  {
    if pos in c.cmap {
      MoveToBackExact(c, pos);
    } else {
      InsertExact(c, pos, buf, maxsz);
    }
  }

  /** When every other entry agrees with the file, the cache does exactly if the entry at `pos` does. */
  lemma CoherentIffAt(st: Store, pos: int, pcsz: nat, maxsz: nat)
    requires 0 < pcsz && 0 < maxsz && Exact(st.index) && |st.index.cvec| <= maxsz && pos in st.index.cmap
    requires forall a :: a in st.index.cvec && a.pos != pos ==> Agrees(a, st.file, pcsz)
    ensures Coherent(st, pcsz, maxsz) <==> Agrees(st.index.cvec[st.index.cmap[pos]], st.file, pcsz)
  {
    hide Agrees;
    EntriesAt(st.index, pos);
  }

  lemma PutOthersAgreeAll(st: Store, p: nat, piece: Bytes, copy: Bytes, pcsz: nat, maxsz: nat)
    requires Coherent(st, pcsz, maxsz) && |piece| == pcsz
    ensures var st' := Put(st, p, piece, copy, pcsz, maxsz);
      forall a :: a in st'.index.cvec && a.pos != Pos(p, pcsz) ==> Agrees(a, st'.file, pcsz)
  {
    hide Agrees, WriteAt, Update, Exact;
    var st' := Put(st, p, piece, copy, pcsz, maxsz);
    UpdateEntries(st.index, Pos(p, pcsz), copy, maxsz);
    forall a | a in st'.index.cvec && a.pos != Pos(p, pcsz) ensures Agrees(a, st'.file, pcsz) {
      PutOthersAgree(st, p, piece, pcsz, a);
    }
  }

  /**
   A put writes the piece through to the file. When the piece was not cached it keeps the cache in agreement exactly
   if the piece is terminated; when it was, the new buffer is dropped, so exactly if the cached string is the new one.
   */
  lemma PutKeepsCoherentIff(st: Store, p: nat, piece: Bytes, text: Bytes, copy: Bytes, pcsz: nat, maxsz: nat)
    requires Coherent(st, pcsz, maxsz) && |piece| == pcsz && ReadsAs(piece, text) && Printed(copy, text, pcsz)
    ensures Region(Put(st, p, piece, copy, pcsz, maxsz).file, Pos(p, pcsz), pcsz) == piece
    ensures Coherent(Put(st, p, piece, copy, pcsz, maxsz), pcsz, maxsz)
       <==> if Pos(p, pcsz) in st.index.cmap then View(Served(st, Pos(p, pcsz), copy)) == View(piece)
            else Terminated(piece)
  {
    var pos, st' := Pos(p, pcsz), Put(st, p, piece, copy, pcsz, maxsz);
    WriteWritten(st.file, pos, piece);
    HopKeepsViewIff(piece, text, copy);
    UpdateEntries(st.index, pos, copy, maxsz);
    UpdateEntryAt(st.index, pos, copy, maxsz);
    PutOthersAgreeAll(st, p, piece, copy, pcsz, maxsz);
    CoherentIffAt(st', pos, pcsz, maxsz);
    EntriesAt(st'.index, pos);
    if pos in st.index.cmap {
      EntriesAt(st.index, pos);
    }
    hide Region, WriteAt, Update, Exact, Coherent, View;
  }
}
