/** The cache as the object the program keeps: fields updated in place, over the backing file. */
module CacheObject {
  import opened CStrings
  import opened Lru
  import opened CacheModel

  const CACHESZ := 10027008

  class Cache {
    const pcsz: nat
    const npcs: nat
    const maxsz: nat
    var cvec: seq<Access>
    var cmap: map<int, int>
    var file: Bytes
    ghost var trace: seq<int>   // every position accessed so far, in order

    ghost function State(): Store
      reads this
    {
      CacheModel.Store(file, Index(cvec, cmap))
    }

    /** The index is exact, holds the most recent positions of the trace, and every buffer agrees with the file. */
    ghost predicate Valid()
      reads this
    {
      && Coherent(State(), pcsz, maxsz)
      && Recent(Positions(Index(cvec, cmap)), trace, maxsz)
    }

    /** With more pieces than `CACHESZ` the capacity is 0, with which no access works. */
    constructor (pcsz: nat, npcs: nat, file: Bytes)
      requires 0 < pcsz && 0 < npcs
      ensures (Valid() <==> npcs <= CACHESZ) && this.pcsz == pcsz && this.npcs == npcs && maxsz == CACHESZ / npcs
      ensures this.file == file && cvec == [] && trace == []
    {
      this.pcsz, this.npcs, this.maxsz := pcsz, npcs, CACHESZ / npcs;
      this.cvec, this.cmap, this.file, this.trace := [], map[], file, [];
    }

    method GetPos(pcno: nat) returns (pos: nat)
      ensures pos == Pos(pcno, pcsz)
    {
      pos := pcsz * pcno;
    }

    /** `update_cache`, repaired: the hit element itself moves and the indices behind a removed slot are renumbered. */
    method UpdateCache(pos: int, buf: Bytes)
      requires Exact(Index(cvec, cmap)) && |cvec| <= maxsz && 0 < maxsz
      modifies this`cvec, this`cmap
      ensures Index(cvec, cmap) == Update(old(Index(cvec, cmap)), pos, buf, maxsz)
    {
      if pos in cmap {
        var k := cmap[pos];
        var acc := cvec[k];
        cvec := cvec[..k] + cvec[k + 1..];
        cmap := map q | q in cmap && q != pos :: if cmap[q] > k then cmap[q] - 1 else cmap[q];
        cmap := cmap[pos := |cvec|];
        cvec := cvec + [acc];
      } else {
        if |cvec| == maxsz {
          var first := cvec[0];
          cvec := cvec[1..];
          cmap := map q | q in cmap && q != first.pos :: cmap[q] - 1;
        }
        cmap := cmap[pos := |cvec|];
        cvec := cvec + [Access(pos, buf)];
      }
    }

    /** `update_cache` as written. It leaves an exact index exact just when there is nothing to renumber. */
    method UpdateCacheAsWritten(pos: int, buf: Bytes)
      requires InRange(Index(cvec, cmap)) && 0 < maxsz
      modifies this`cvec, this`cmap
      ensures Index(cvec, cmap) == UpdateAsWritten(old(Index(cvec, cmap)), pos, buf, maxsz)
      ensures InRange(Index(cvec, cmap))
      ensures old(Exact(Index(cvec, cmap)) && |cvec| <= maxsz) ==>
        (Exact(Index(cvec, cmap)) <==> NothingToRenumber(old(Index(cvec, cmap)), pos, maxsz))
    {
      if Exact(Index(cvec, cmap)) && |cvec| <= maxsz {
        AsWrittenExactIff(Index(cvec, cmap), pos, buf, maxsz);
      }
      if pos in cmap {
        var acc := cvec[0];
        var k := cmap[pos];
        cvec := cvec[..k] + cvec[k + 1..];
        cmap := cmap - {pos};
        cmap := cmap[pos := |cvec|];
        cvec := cvec + [acc];
      } else {
        if |cvec| == maxsz {
          var first := cvec[0];
          cvec := cvec[1..];
          cmap := cmap - {first.pos};
        }
        cmap := cmap[pos := |cvec|];
        cvec := cvec + [Access(pos, buf)];
      }
    }

    /** `lseek` and `read` into a buffer whose bytes are arbitrary beforehand. */
    method Load(pos: nat) returns (loaded: Bytes)
      ensures ReadInto(loaded, file, pos, pcsz)
    {
      var store := new Byte[pcsz];
      var region := Region(file, pos, pcsz);
      for i := 0 to |region|
        invariant store[..i] == region[..i]
      {
        store[i] := region[i];
      }
      loaded := store[..];
    }

    /**
     `get`: on a hit or a miss, the string of the piece's region of the file. If the region is short and has no NUL,
     what follows its bytes is arbitrary, and so is what is then cached.
     */
    method Get(pcno: nat) returns (buf: Bytes, ghost loaded: Bytes)
      requires Valid()
      modifies this`cvec, this`cmap, this`trace
      ensures Valid() <==> Readable(Region(file, Pos(pcno, pcsz), pcsz), pcsz)
      ensures trace == old(trace) + [Pos(pcno, pcsz)] && Recent(Positions(Index(cvec, cmap)), trace, maxsz)
      ensures |buf| == pcsz
      ensures var r := Region(file, Pos(pcno, pcsz), pcsz);
        if Readable(r, pcsz) then View(buf) == View(r) else r <= View(buf)
      ensures Mapped(old(Index(cvec, cmap)), Pos(pcno, pcsz)) || ReadInto(loaded, file, Pos(pcno, pcsz), pcsz)
      ensures State() == CacheModel.Get(old(State()), pcno, loaded, pcsz, maxsz)
      ensures buf == Strncpy(Served(old(State()), Pos(pcno, pcsz), loaded))
    {
      var pos := GetPos(pcno);
      var store;
      if pos in cmap {
        var acc := cvec[cmap[pos]];
        store := acc.buf;
        assert acc in cvec;
      } else {
        store := Load(pos);
      }
      GetServesFile(State(), pcno, store, pcsz, maxsz);
      UpdateKeepsRecent(Index(cvec, cmap), trace, pos, store, maxsz);
      UpdateCache(pos, store);
      trace := trace + [pos];
      buf, loaded := Strncpy(store), store;
    }

    /**
     `put`: the piece goes to the file and a string copy of it to the cache. The cache stays in agreement unless
     the piece was already cached with another string, which is then stale, or is new and unterminated.
     */
    method Put(pcno: nat, piece: Bytes) returns (ghost text: Bytes, ghost copy: Bytes)
      requires Valid() && |piece| == pcsz
      modifies this`cvec, this`cmap, this`file, this`trace
      ensures file == WriteAt(old(file), Pos(pcno, pcsz), piece)
      ensures Region(file, Pos(pcno, pcsz), pcsz) == piece
      ensures trace == old(trace) + [Pos(pcno, pcsz)] && Recent(Positions(Index(cvec, cmap)), trace, maxsz)
      ensures ReadsAs(piece, text) && Printed(copy, text, pcsz)
      ensures State() == CacheModel.Put(old(State()), pcno, piece, copy, pcsz, maxsz)
      ensures Valid() <==>
        if Pos(pcno, pcsz) in old(cmap) then old(View(Served(State(), Pos(pcno, pcsz), piece))) == View(piece)
        else Terminated(piece)
    {
      var pos := GetPos(pcno);
      var str := StringAt(piece);
      var buf := Snprintf(str, pcsz);
      text, copy := str, buf;
      PutKeepsCoherentIff(State(), pcno, piece, str, buf, pcsz, maxsz);
      UpdateKeepsRecent(Index(cvec, cmap), trace, pos, buf, maxsz);
      file := WriteAt(file, pos, piece);
      UpdateCache(pos, buf);
      trace := trace + [pos];
    }

    /** `exists` as meant: whether the piece is cached. */
    method Exists(pcno: nat) returns (ret: bool)
      ensures ret <==> Pos(pcno, pcsz) in cmap
    {
      var pos := GetPos(pcno);
      ret := pos in cmap;
    }
  }

  /** The string a C function reads at `src`; what it is past the end of an unterminated buffer is left open. */
  method StringAt(src: Bytes) returns (text: Bytes)
    ensures ReadsAs(src, text)
  {
    text := View(src);
  }

  /** `snprintf(buf, n, "%s", text)` into a buffer whose bytes are arbitrary beforehand. */
  method Snprintf(text: Bytes, n: nat) returns (dst: Bytes)
    requires 0 < n
    ensures Printed(dst, text, n)
  {
    var buf := new Byte[n];
    var k := Min(|text|, n - 1);
    for i := 0 to k
      invariant buf[..i] == text[..i]
    {
      buf[i] := text[i];
    }
    buf[k] := 0;
    dst := buf[..];
    assert dst[..k] == buf[..k];
  }

  lemma OwnOffsetIff(pcno: nat, pcsz: nat)
    requires 0 < pcsz
    ensures Pos(pcno, pcsz) == pcno <==> pcno == 0 || pcsz == 1
  {
    assert pcsz * pcno == pcno + (pcsz - 1) * pcno;
  }

  /**
   `exists` as written looks a piece number up among file offsets. Over all caches in agreement with a file it answers
   whether the piece is cached exactly for piece 0 or for one-byte pieces.
   */
  lemma ExistsAsWrittenIff(pcno: nat, pcsz: nat)
    requires 0 < pcsz
    ensures (forall st, maxsz {:trigger Coherent(st, pcsz, maxsz)} :: Coherent(st, pcsz, maxsz) ==>
               (pcno in st.index.cmap <==> Pos(pcno, pcsz) in st.index.cmap))
       <==> pcno == 0 || pcsz == 1
  {
    OwnOffsetIff(pcno, pcsz);
    if Pos(pcno, pcsz) != pcno {
      var st := LoneEntry(pcno, pcsz);
    }
  }

  /** A file of zeros long enough for the piece, with just that piece cached. */
  lemma LoneEntry(pcno: nat, pcsz: nat) returns (st: CacheModel.Store)
    requires 0 < pcsz
    ensures Coherent(st, pcsz, 1) && st.index.cmap.Keys == {Pos(pcno, pcsz) as int}
  {
    var pos := Pos(pcno, pcsz);
    var zeros: Bytes := seq(pcsz, _ => 0);
    st := CacheModel.Store(seq(pos + pcsz, _ => 0), Index([Access(pos, zeros)], map[pos as int := 0]));
    assert Region(st.file, pos, pcsz) == zeros;
  }
}
