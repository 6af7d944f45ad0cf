/** The object store: a bit field over the cached file, and the check, put, flip discipline that joins them. */
module ObjStoreModel {
  import opened BitfieldModel
  import opened CStrings
  import opened CacheModel
  import opened CacheObject

  /** A call on the store; `text` and `junk` are what C leaves open: what is read of a piece, what fills a buffer. */
  datatype Call = Add(p: nat, piece: Bytes, text: Bytes, junk: Bytes) | Fetch(p: nat, junk: Bytes)

  datatype StoreState = StoreState(pieces: set<nat>, store: CacheModel.Store)

  /** What a call makes of the store. */
  function After(c: Call, s: StoreState, pcsz: nat, maxsz: nat): StoreState
    requires 0 < maxsz
  {
    match c
    case Add(p, piece, text, junk) =>
      if p in s.pieces then s else StoreState(s.pieces + {p}, Put(s.store, p, piece, junk, pcsz, maxsz))
    case Fetch(p, junk) =>
      if p in s.pieces then s.(store := Get(s.store, p, junk, pcsz, maxsz)) else s
  }

  class ObjStore {
    const cache: Cache
    const bfield: Bfield

    /** Every piece whose bit is set can be read, and every cached piece has its bit set. */
    ghost predicate Valid()
      reads this, cache, bfield
    {
      && cache.Valid()
      && (forall p :: p in bfield.Pieces() ==> Readable(Region(cache.file, Pos(p, cache.pcsz), cache.pcsz), cache.pcsz))
      && (forall p: nat :: Pos(p, cache.pcsz) in cache.cmap ==> p in bfield.Pieces())
    }

    /** The store as a value. */
    ghost function Value(): StoreState
      reads this, cache, bfield
    {
      StoreState(bfield.Pieces(), cache.State())
    }

    /** The string of piece `p` in the file. */
    ghost function Text(p: nat): Bytes
      reads this, cache
    {
      View(Region(cache.file, Pos(p, cache.pcsz), cache.pcsz))
    }

    /** `bfield_init` on a file that is to have the pieces if `hasfile` says so; with too many the cache has no room. */
    constructor (pcsz: nat, npcs: nat, file: Bytes, hasfile: bool)
      requires 0 < pcsz && 0 < npcs
      ensures Valid() <==>
        (npcs <= CACHESZ
         && (hasfile ==> forall p: nat :: p < npcs ==> Readable(Region(file, Pos(p, pcsz), pcsz), pcsz)))
      ensures fresh(cache) && fresh(bfield) && cache.file == file && cache.pcsz == pcsz
      ensures bfield.Pieces() == (if hasfile then Below(npcs) else {}) && |bfield.bfield| == NumBytes(npcs)
    {
      cache := new Cache(pcsz, npcs, file);
      bfield := new Bfield.Store(hasfile, npcs);
    }

    /**
     `add_piece`: 0 and no change when the bit is set; otherwise 1, the piece is in the file, its bit is set last,
     and no other readable piece's string changes. An unterminated piece leaves a cut copy of itself in the cache.
     */
    method AddPiece(pcno: nat, piece: Bytes) returns (r: int, ghost text: Bytes, ghost copy: Bytes)
      requires Valid() && pcno < 8 * |bfield.bfield| && |piece| == cache.pcsz
      modifies cache, bfield
      ensures Valid() <==> pcno in old(bfield.Pieces()) || Terminated(piece)
      ensures |bfield.bfield| == old(|bfield.bfield|)
      ensures if pcno in old(bfield.Pieces())
              then r == 0 && bfield.Pieces() == old(bfield.Pieces()) && cache.State() == old(cache.State())
              else r == 1 && bfield.Pieces() == old(bfield.Pieces()) + {pcno} && Text(pcno) == View(piece)
      ensures forall q :: q in old(bfield.Pieces()) ==> Text(q) == old(Text(q))
      ensures pcno !in old(bfield.Pieces()) ==> ReadsAs(piece, text) && Printed(copy, text, cache.pcsz)
      ensures Value() == After(Add(pcno, piece, text, copy), old(Value()), cache.pcsz, cache.maxsz)
    {
      r, text, copy := 0, [], [];
      var there := bfield.Exists(pcno);
      if there {
        return;
      }
      ghost var st := cache.State();
      assert Pos(pcno, cache.pcsz) !in cache.cmap;
      text, copy := cache.Put(pcno, piece);
      forall q | q in bfield.Pieces()
        ensures Readable(Region(cache.file, Pos(q, cache.pcsz), cache.pcsz), cache.pcsz) && Text(q) == old(Text(q))
      {
        PutElsewhere(st, pcno, piece, cache.pcsz, q);
      }
      OnlyAdds(st.index, pcno, copy, cache.pcsz, cache.maxsz);
      bfield.Flip(pcno);
      r := 1;
    }

    /** `get_piece`: 0 when the bit is clear, else 1 and the piece's string; nothing but cache order changes. */
    method GetPiece(pcno: nat) returns (r: int, buf: Bytes, ghost loaded: Bytes)
      requires Valid() && pcno < 8 * |bfield.bfield|
      modifies cache
      ensures Valid() && cache.file == old(cache.file)
      ensures if pcno in bfield.Pieces() then r == 1 && |buf| == cache.pcsz && View(buf) == Text(pcno) else r == 0
      ensures pcno !in bfield.Pieces() ==> cache.State() == old(cache.State())
      ensures pcno in bfield.Pieces() ==> var st, pos := old(cache.State()), Pos(pcno, cache.pcsz);
        && (Mapped(st.index, pos) || ReadInto(loaded, cache.file, pos, cache.pcsz))
        && buf == Strncpy(Served(st, pos, loaded))
      ensures Value() == After(Fetch(pcno, loaded), old(Value()), cache.pcsz, cache.maxsz)
    {
      r, buf, loaded := 0, [], [];
      var there := bfield.Exists(pcno);
      if !there {
        return;
      }
      ghost var st := cache.State();
      buf, loaded := cache.Get(pcno);
      OnlyAdds(st.index, pcno, loaded, cache.pcsz, cache.maxsz);
      r := 1;
    }
  }

  /** An access to a piece adds at most that piece to the cached ones. */
  lemma OnlyAdds(c: Index, pcno: nat, buf: Bytes, pcsz: nat, maxsz: nat)
    requires Exact(c) && |c.cvec| <= maxsz && 0 < maxsz && 0 < pcsz
    ensures forall p: nat :: Pos(p, pcsz) in Update(c, Pos(pcno, pcsz), buf, maxsz).cmap ==>
      Pos(p, pcsz) in c.cmap || p == pcno
  {
    UpdateEntries(c, Pos(pcno, pcsz), buf, maxsz);
    forall p: nat | Pos(p, pcsz) == Pos(pcno, pcsz) ensures p == pcno {
      PosInjective(p, pcno, pcsz);
    }
  }

  // ----- any sequence of adds and gets, with any contents -----

  /** The string of piece `p` in the file. */
  function TextAt(file: Bytes, p: nat, pcsz: nat): Bytes {
    View(Region(file, Pos(p, pcsz), pcsz))
  }

  /** `t` is the string, or, of one that fills its piece, all but its last byte. */
  predicate SameOrCut(t: Bytes, text: Bytes, pcsz: nat) {
    t == text || (|text| == pcsz > 0 && t == text[..pcsz - 1])
  }

  /** A cached buffer holds its region's string, or that string cut to leave room for a terminator. */
  ghost predicate HoldsText(a: Access, file: Bytes, pcsz: nat) {
    && |a.buf| == pcsz
    && exists p: nat :: a.pos == Pos(p, pcsz) && Readable(Region(file, Pos(p, pcsz), pcsz), pcsz)
                        && SameOrCut(View(a.buf), TextAt(file, p, pcsz), pcsz)
  }

  ghost predicate StoreOk(s: StoreState, pcsz: nat, maxsz: nat) {
    && 0 < pcsz && 0 < maxsz && Exact(s.store.index) && |s.store.index.cvec| <= maxsz
    && (forall a :: a in s.store.index.cvec ==> HoldsText(a, s.store.file, pcsz))
    && (forall p :: p in s.pieces ==> Readable(Region(s.store.file, Pos(p, pcsz), pcsz), pcsz))
    && (forall p: nat :: Pos(p, pcsz) in s.store.index.cmap ==> p in s.pieces)
  }

  /** The arguments a call may be made with: pieces are of full size, and buffers are filled as C fills them. */
  ghost predicate Legal(c: Call, s: StoreState, pcsz: nat) {
    match c
    case Add(p, piece, text, junk) => |piece| == pcsz && ReadsAs(piece, text) && Printed(junk, text, pcsz)
    case Fetch(p, junk) => Mapped(s.store.index, Pos(p, pcsz)) || ReadInto(junk, s.store.file, Pos(p, pcsz), pcsz)
  }

  ghost predicate LegalRun(cs: seq<Call>, s: StoreState, pcsz: nat, maxsz: nat)
    requires 0 < maxsz
  {
    cs != [] ==> Legal(cs[0], s, pcsz) && LegalRun(cs[1..], After(cs[0], s, pcsz, maxsz), pcsz, maxsz)
  }

  function AfterAll(cs: seq<Call>, s: StoreState, pcsz: nat, maxsz: nat): StoreState
    requires 0 < maxsz
  {
    if cs == [] then s else AfterAll(cs[1..], After(cs[0], s, pcsz, maxsz), pcsz, maxsz)
  }

  lemma UpdateExact(c: Index, pos: int, buf: Bytes, maxsz: nat)
    requires Exact(c) && |c.cvec| <= maxsz && 0 < maxsz
    ensures Exact(Update(c, pos, buf, maxsz))
  {
    if pos in c.cmap {
      MoveToBackExact(c, pos);
    } else {
      InsertExact(c, pos, buf, maxsz);
    }
  }

  /** What a put caches of a piece: its string, cut if it has no NUL. */
  lemma CopyHoldsText(piece: Bytes, text: Bytes, copy: Bytes, pcsz: nat)
    requires |piece| == pcsz && ReadsAs(piece, text) && Printed(copy, text, pcsz)
    ensures |copy| == pcsz && SameOrCut(View(copy), View(piece), pcsz)
  {
    TerminatedView(piece);
    PrintedView(copy, text, pcsz);
    HopKeepsViewIff(piece, text, copy);
    if !Terminated(piece) {
      assert View(piece) == piece && text[..pcsz - 1] == piece[..pcsz - 1];
    }
  }

  /** A put leaves what every buffer cached for another piece holds in order. */
  lemma OthersHoldText(st: CacheModel.Store, q: nat, piece: Bytes, pcsz: nat, a: Access)
    requires |piece| == pcsz && HoldsText(a, st.file, pcsz) && a.pos != Pos(q, pcsz)
    ensures HoldsText(a, WriteAt(st.file, Pos(q, pcsz), piece), pcsz)
  {
    var p: nat :| a.pos == Pos(p, pcsz) && Readable(Region(st.file, Pos(p, pcsz), pcsz), pcsz)
                  && SameOrCut(View(a.buf), TextAt(st.file, p, pcsz), pcsz);
    PutElsewhere(st, q, piece, pcsz, p);
    hide WriteAt, Region, View;
  }

  lemma FetchKeepsOk(q: nat, junk: Bytes, s: StoreState, pcsz: nat, maxsz: nat)
    requires StoreOk(s, pcsz, maxsz) && Legal(Fetch(q, junk), s, pcsz) && q in s.pieces
    ensures StoreOk(After(Fetch(q, junk), s, pcsz, maxsz), pcsz, maxsz)
  {
    var c, pos := s.store.index, Pos(q, pcsz);
    UpdateEntries(c, pos, junk, maxsz);
    UpdateExact(c, pos, junk, maxsz);
    OnlyAdds(c, q, junk, pcsz, maxsz);
    if pos !in c.cmap {
      ReadView(junk, s.store.file, pos, pcsz);
      assert HoldsText(Access(pos, junk), s.store.file, pcsz);
    }
    hide Update, Exact, HoldsText, Region, View;
  }

  lemma AddKeepsOk(q: nat, piece: Bytes, text: Bytes, junk: Bytes, s: StoreState, pcsz: nat, maxsz: nat)
    requires StoreOk(s, pcsz, maxsz) && Legal(Add(q, piece, text, junk), s, pcsz) && q !in s.pieces
    ensures StoreOk(After(Add(q, piece, text, junk), s, pcsz, maxsz), pcsz, maxsz)
    ensures forall p :: p in s.pieces ==>
      TextAt(WriteAt(s.store.file, Pos(q, pcsz), piece), p, pcsz) == TextAt(s.store.file, p, pcsz)
  {
    var c, pos, file' := s.store.index, Pos(q, pcsz), WriteAt(s.store.file, Pos(q, pcsz), piece);
    UpdateEntries(c, pos, junk, maxsz);
    UpdateExact(c, pos, junk, maxsz);
    OnlyAdds(c, q, junk, pcsz, maxsz);
    WriteWritten(s.store.file, pos, piece);
    CopyHoldsText(piece, text, junk, pcsz);
    assert HoldsText(Access(pos, junk), file', pcsz);
    forall a | a in c.cvec ensures HoldsText(a, file', pcsz) {
      assert a.pos in c.cmap;
      OthersHoldText(s.store, q, piece, pcsz, a);
    }
    forall p | p in s.pieces
      ensures Readable(Region(file', Pos(p, pcsz), pcsz), pcsz)
      ensures TextAt(file', p, pcsz) == TextAt(s.store.file, p, pcsz)
    {
      PutElsewhere(s.store, q, piece, pcsz, p);
    }
    hide Update, HoldsText, WriteAt, Region, View, Exact;
  }

  lemma CallKeepsPiece(c: Call, s: StoreState, p: nat, pcsz: nat, maxsz: nat)
    requires StoreOk(s, pcsz, maxsz) && Legal(c, s, pcsz)
    ensures var s' := After(c, s, pcsz, maxsz);
      && StoreOk(s', pcsz, maxsz) && s.pieces <= s'.pieces
      && (p in s.pieces ==> TextAt(s'.store.file, p, pcsz) == TextAt(s.store.file, p, pcsz))
  {
    hide StoreOk, Legal, TextAt;
    match c
    case Fetch(q, junk) =>
      if q in s.pieces {
        FetchKeepsOk(q, junk, s, pcsz, maxsz);
      }
    case Add(q, piece, text, junk) =>
      if q !in s.pieces {
        AddKeepsOk(q, piece, text, junk, s, pcsz, maxsz);
      }
  }

  /** What a get serves of a held piece: its string in the file; cut, at most when it is cached and has no NUL. */
  lemma FetchServes(s: StoreState, p: nat, junk: Bytes, pcsz: nat, maxsz: nat)
    requires StoreOk(s, pcsz, maxsz) && p in s.pieces && Legal(Fetch(p, junk), s, pcsz)
    ensures SameOrCut(View(Served(s.store, Pos(p, pcsz), junk)), TextAt(s.store.file, p, pcsz), pcsz)
    ensures Pos(p, pcsz) !in s.store.index.cmap ==>
      View(Served(s.store, Pos(p, pcsz), junk)) == TextAt(s.store.file, p, pcsz)
  {
    var pos := Pos(p, pcsz);
    if pos in s.store.index.cmap {
      var a := s.store.index.cvec[s.store.index.cmap[pos]];
      assert a in s.store.index.cvec;
      var q: nat :| a.pos == Pos(q, pcsz) && SameOrCut(View(a.buf), TextAt(s.store.file, q, pcsz), pcsz);
      PosInjective(p, q, pcsz);
    } else {
      ReadView(junk, s.store.file, pos, pcsz);
    }
  }

  /**
   Once a piece's bit is set, whatever adds and gets follow, with whatever contents, its string in the file stays,
   and a get serves that string; of a piece without a NUL a cached copy may lack the last byte, no other does.
   */
  lemma {:induction false} PieceStable(cs: seq<Call>, s: StoreState, p: nat, junk: Bytes, pcsz: nat, maxsz: nat)
    requires 0 < maxsz && StoreOk(s, pcsz, maxsz) && LegalRun(cs, s, pcsz, maxsz) && p in s.pieces
    requires Legal(Fetch(p, junk), AfterAll(cs, s, pcsz, maxsz), pcsz)
    ensures var s', text := AfterAll(cs, s, pcsz, maxsz), TextAt(s.store.file, p, pcsz);
      && p in s'.pieces && TextAt(s'.store.file, p, pcsz) == text
      && SameOrCut(View(Served(s'.store, Pos(p, pcsz), junk)), text, pcsz)
      && (|text| < pcsz || Pos(p, pcsz) !in s'.store.index.cmap ==>
            View(Served(s'.store, Pos(p, pcsz), junk)) == text)
  {
    hide StoreOk, Legal, TextAt, Served, View;
    if cs == [] {
      FetchServes(s, p, junk, pcsz, maxsz);
    } else {
      CallKeepsPiece(cs[0], s, p, pcsz, maxsz);
      PieceStable(cs[1..], After(cs[0], s, pcsz, maxsz), p, junk, pcsz, maxsz);
    }
  }

  /** The pieces some add of the calls names. */
  ghost function AddedBy(cs: seq<Call>): set<nat> {
    set i | 0 <= i < |cs| && cs[i].Add? :: cs[i].p
  }

  lemma AddedByHead(cs: seq<Call>)
    requires cs != []
    ensures AddedBy(cs) == (if cs[0].Add? then {cs[0].p} else {}) + AddedBy(cs[1..])
  {
    forall p | p in AddedBy(cs) ensures p in (if cs[0].Add? then {cs[0].p} else {}) + AddedBy(cs[1..]) {
      var i :| 0 <= i < |cs| && cs[i].Add? && cs[i].p == p;
      assert i > 0 ==> cs[1..][i - 1] == cs[i];
    }
    forall p | p in AddedBy(cs[1..]) ensures p in AddedBy(cs) {
      var i :| 0 <= i < |cs| - 1 && cs[1..][i].Add? && cs[1..][i].p == p;
      assert cs[i + 1] == cs[1..][i];
    }
  }

  /** After any sequence of calls the store holds what it held and every piece some add named, and nothing else. */
  lemma {:induction false} PiecesAfter(cs: seq<Call>, s: StoreState, pcsz: nat, maxsz: nat)
    requires 0 < maxsz
    ensures AfterAll(cs, s, pcsz, maxsz).pieces == s.pieces + AddedBy(cs)
  {
    if cs == [] {
    } else {
      AddedByHead(cs);
      PiecesAfter(cs[1..], After(cs[0], s, pcsz, maxsz), pcsz, maxsz);
    }
  }

  /** Call `i` is the first to add its piece. */
  ghost predicate FirstAdd(cs: seq<Call>, i: nat) {
    i < |cs| && cs[i].Add? && forall j :: 0 <= j < i && cs[j].Add? ==> cs[j].p != cs[i].p
  }

  /** Held pieces keep their text in the file over any sequence of calls. */
  lemma {:induction false} TextStays(cs: seq<Call>, s: StoreState, p: nat, pcsz: nat, maxsz: nat)
    requires 0 < maxsz && StoreOk(s, pcsz, maxsz) && LegalRun(cs, s, pcsz, maxsz) && p in s.pieces
    ensures TextAt(AfterAll(cs, s, pcsz, maxsz).store.file, p, pcsz) == TextAt(s.store.file, p, pcsz)
  {
    hide StoreOk, Legal, TextAt, After;
    if cs != [] {
      CallKeepsPiece(cs[0], s, p, pcsz, maxsz);
      TextStays(cs[1..], After(cs[0], s, pcsz, maxsz), p, pcsz, maxsz);
    }
  }

  /** A piece not held before has in the end the text of the first add that named it; later adds do not matter. */
  lemma {:induction false} FirstAddWins(cs: seq<Call>, s: StoreState, i: nat, pcsz: nat, maxsz: nat)
    requires 0 < maxsz && StoreOk(s, pcsz, maxsz) && LegalRun(cs, s, pcsz, maxsz)
    requires FirstAdd(cs, i) && cs[i].p !in s.pieces
    ensures TextAt(AfterAll(cs, s, pcsz, maxsz).store.file, cs[i].p, pcsz) == View(cs[i].piece)
  {
    hide StoreOk, Legal, TextAt;
    var s', p := After(cs[0], s, pcsz, maxsz), cs[i].p;
    CallKeepsPiece(cs[0], s, p, pcsz, maxsz);
    if i == 0 {
      AddWrites(cs[0], s, pcsz, maxsz);
      TextStays(cs[1..], s', p, pcsz, maxsz);
    } else {
      assert cs[1..][i - 1] == cs[i];
      assert forall j :: 0 <= j < i - 1 ==> cs[1..][j] == cs[j + 1];
      FirstAddWins(cs[1..], s', i - 1, pcsz, maxsz);
    }
  }

  lemma AddWrites(c: Call, s: StoreState, pcsz: nat, maxsz: nat)
    requires 0 < maxsz && c.Add? && c.p !in s.pieces && Legal(c, s, pcsz)
    ensures c.p in After(c, s, pcsz, maxsz).pieces
    ensures TextAt(After(c, s, pcsz, maxsz).store.file, c.p, pcsz) == View(c.piece)
  {
    WriteWritten(s.store.file, Pos(c.p, pcsz), c.piece);
  }
}
