/** The handler's helpers as the loops they are, tied to the functions the protocol's steps are made of. */
module HandlerOps {
  import opened Bits
  import opened BitfieldModel
  import opened CStrings
  import opened CacheModel
  import opened CacheObject
  import opened ObjStoreModel
  import opened Protocol
  import Earmarking

  /** The writing end of a connection. */
  class Socket {
    var out: seq<Message>

    constructor ()
      ensures out == []
    {
      out := [];
    }

    method Snd(m: Message)
      modifies this
      ensures out == old(out) + [m]
    {
      out := out + [m];
    }
  }

  /** `diff_to_reqs`: the set bits of `diff` become keys of `reqs`. */
  method DiffToReqs(reqs: map<nat, bool>, diff: seq<bv8>) returns (r: map<nat, bool>)
    ensures r.Keys == reqs.Keys + PiecesOf(diff)
    ensures forall p :: p in r ==> r[p] == if p in PiecesOf(diff) then true else reqs[p]
  {
    hide Mask, PiecesOf, WithPieces;
    r := reqs;
    NoPieces(reqs, diff);
    for i := 0 to |diff|
      invariant r == WithPieces(reqs, diff, 8 * i)
    {
      for j := 0 to 8
        invariant r == WithPieces(reqs, diff, 8 * i + j)
      {
        Address(diff, i, j);
        NextPiece(reqs, diff, 8 * i + j);
        var mask := (1 as bv8) << j;
        MaskIsShift(j);
        if diff[i] & mask == mask {
          r := r[8 * i + j := true];
        }
      }
    }
    WithAllPieces(reqs, diff);
  }

  lemma WithAllPieces(reqs: map<nat, bool>, diff: seq<bv8>)
    ensures var r := WithPieces(reqs, diff, 8 * |diff|);
      && r.Keys == reqs.Keys + PiecesOf(diff)
      && forall p :: p in r ==> r[p] == if p in PiecesOf(diff) then true else reqs[p]
  {
  }

  /** `reqs` with the pieces of `diff` below `k` added. */
  ghost function WithPieces(reqs: map<nat, bool>, diff: seq<bv8>, k: nat): map<nat, bool> {
    reqs + map p | p in PiecesOf(diff) && p < k :: true
  }

  lemma NoPieces(reqs: map<nat, bool>, diff: seq<bv8>)
    ensures WithPieces(reqs, diff, 0) == reqs
  {
  }

  lemma NextPiece(reqs: map<nat, bool>, diff: seq<bv8>, k: nat)
    ensures WithPieces(reqs, diff, k + 1)
         == if k in PiecesOf(diff) then WithPieces(reqs, diff, k)[k := true] else WithPieces(reqs, diff, k)
  {
    hide PiecesOf;
    assert forall p :: p in PiecesOf(diff) && p < k + 1 <==>
      (p in PiecesOf(diff) && p < k) || (k in PiecesOf(diff) && p == k);
  }

  /** `send_requests`: one request for every key, in whatever order the map yields them. */
  method SendRequests(sock: Socket, reqs: map<nat, bool>) returns (ghost order: seq<nat>)
    modifies sock
    ensures IsOrder(order, reqs.Keys) && sock.out == old(sock.out) + Requests(order)
  {
    order := [];
    var rest := reqs.Keys;
    assert sock.out == old(sock.out) + Requests(order);
    while rest != {}
      invariant rest <= reqs.Keys && IsOrder(order, reqs.Keys - rest)
      invariant sock.out == old(sock.out) + Requests(order)
      decreases rest
    {
      var p :| p in rest;
      sock.Snd(Request(p));
      assert Requests(order + [p]) == Requests(order) + [Request(p)];
      order := order + [p];
      rest := rest - {p};
      assert reqs.Keys - rest == reqs.Keys - (rest + {p}) + {p};
    }
    assert reqs.Keys - {} == reqs.Keys;
  }

  /** `send_haves`: for each piece of the peer's that `exists` says is cached, a Have, in ascending order. */
  method SendHaves(sock: Socket, cmap: map<int, int>, field: seq<bv8>)
    modifies sock
    ensures sock.out == old(sock.out) + Haves(PiecesOf(field), cmap, 0, 8 * |field|)
  {
    hide Mask, PiecesOf;
    assert Haves(PiecesOf(field), cmap, 0, 0) == [];
    hide Haves;
    for i := 0 to |field|
      invariant sock.out == old(sock.out) + Haves(PiecesOf(field), cmap, 0, 8 * i)
    {
      for j := 0 to 8
        invariant sock.out == old(sock.out) + Haves(PiecesOf(field), cmap, 0, 8 * i + j)
      {
        Address(field, i, j);
        NextHave(PiecesOf(field), cmap, 0, 8 * i + j);
        var mask := (1 as bv8) << j;
        MaskIsShift(j);
        var pcno := 8 * i + j;
        if field[i] & mask == mask && pcno in cmap {
          sock.Snd(Have(pcno));
        }
      }
    }
  }

  /** The haves name those of the field's pieces in range that are cached as offsets. */
  lemma {:induction false} HavesAre(field: set<nat>, cmap: map<int, int>, from: nat, upto: nat, m: Message)
    ensures m in Haves(field, cmap, from, upto) <==>
      m.Have? && from <= m.pcno < upto && m.pcno in field && m.pcno in cmap
    decreases upto - from
  {
    if from < upto {
      HavesAre(field, cmap, from + 1, upto, m);
    }
  }

  /** Each is named once, in ascending order. */
  lemma {:induction false} HavesAscend(field: set<nat>, cmap: map<int, int>, from: nat, upto: nat, i: nat, j: nat)
    requires i < j < |Haves(field, cmap, from, upto)|
    ensures var ms := Haves(field, cmap, from, upto); ms[i].Have? && ms[j].Have? && ms[i].pcno < ms[j].pcno
    decreases upto - from
  {
    var ms, rest := Haves(field, cmap, from, upto), Haves(field, cmap, from + 1, upto);
    if from in field && from in cmap {
      assert ms == [Have(from)] + rest;
      assert rest[j - 1] in rest;
      HavesAre(field, cmap, from + 1, upto, rest[j - 1]);
      if i > 0 {
        HavesAscend(field, cmap, from + 1, upto, i - 1, j - 1);
      }
    } else {
      HavesAscend(field, cmap, from + 1, upto, i, j);
    }
  }

  lemma {:induction false} NextHave(field: set<nat>, cmap: map<int, int>, from: nat, upto: nat)
    requires from <= upto
    ensures Haves(field, cmap, from, upto + 1)
         == Haves(field, cmap, from, upto) + if upto in field && upto in cmap then [Have(upto)] else []
    decreases upto - from
  {
    if from < upto {
      NextHave(field, cmap, from + 1, upto);
    }
  }

  /** `handle_have`: an announced piece still outstanding is asked for again. */
  method HandleHave(sock: Socket, pcno: nat, reqs: map<nat, bool>)
    modifies sock
    ensures sock.out == old(sock.out) + if pcno in reqs then [Interested, Request(pcno)] else []
  {
    if pcno in reqs {
      sock.Snd(Interested);
      sock.Snd(Request(pcno));
    }
  }

  /**
   `handle_piece`: the payload, cut to fit with its terminator, is offered to the store; either way the store then
   holds the piece, and it is no longer outstanding.
   */
  method HandlePiece(ost: ObjStore, pcno: nat, payload: Bytes, reqs: map<nat, bool>)
    returns (r: map<nat, bool>, ghost piece: Bytes, ghost copy: Bytes)
    requires ost.Valid() && pcno < 8 * |ost.bfield.bfield|
    modifies ost.cache, ost.bfield
    ensures ost.Valid() && ost.bfield.Pieces() == old(ost.bfield.Pieces()) + {pcno}
    ensures |ost.bfield.bfield| == old(|ost.bfield.bfield|)
    ensures ost.Text(pcno) == if pcno in old(ost.bfield.Pieces()) then old(ost.Text(pcno))
                              else View(payload)[..Min(|View(payload)|, ost.cache.pcsz - 1)]
    ensures forall q :: q in old(ost.bfield.Pieces()) ==> ost.Text(q) == old(ost.Text(q))
    ensures r == reqs - {pcno}
    ensures Printed(piece, View(payload), ost.cache.pcsz)
    ensures if pcno in old(ost.bfield.Pieces()) then ost.cache.State() == old(ost.cache.State())
            else Printed(copy, View(piece), ost.cache.pcsz) && ost.cache.State()
                 == CacheModel.Put(old(ost.cache.State()), pcno, piece, copy, ost.cache.pcsz, ost.cache.maxsz)
  {
    var buf := Snprintf(View(payload), ost.cache.pcsz);
    piece := buf;
    PrintedView(buf, View(payload), ost.cache.pcsz);
    var _, _, junk := ost.AddPiece(pcno, buf);
    copy := junk;
    r := reqs - {pcno};
  }

  /** `send_piece`: the piece's string, or the exit (`false`) when the store has not got it. */
  method SendPiece(sock: Socket, pcno: nat, ost: ObjStore) returns (ok: bool, ghost loaded: Bytes)
    requires ost.Valid() && pcno < 8 * |ost.bfield.bfield|
    modifies sock, ost.cache
    ensures ost.Valid() && ost.cache.file == old(ost.cache.file)
    ensures ok <==> pcno in ost.bfield.Pieces()
    ensures sock.out == old(sock.out) + if ok then [Piece(pcno, ost.Text(pcno))] else []
    ensures if !ok then ost.cache.State() == old(ost.cache.State()) else
      var st, pos := old(ost.cache.State()), Pos(pcno, ost.cache.pcsz);
      && (Mapped(st.index, pos) || ReadInto(loaded, ost.cache.file, pos, ost.cache.pcsz))
      && ost.cache.State() == CacheModel.Get(st, pcno, loaded, ost.cache.pcsz, ost.cache.maxsz)
      && ost.Text(pcno) == View(Strncpy(Served(st, pos, loaded)))
  {
    var r, buf, junk := ost.GetPiece(pcno);
    loaded := junk;
    ok := r == 1;
    if ok {
      sock.Snd(Piece(pcno, View(buf)));
    }
  }

  // ----- the cases of the message loop, as one thread that nobody interrupts runs them -----

  /** The pieces one thread's pass of earmark goes for: the peer's that the node's own field lacks. */
  ghost function WantedFrom(peer: seq<bv8>, own: Bfield): set<nat>
    reads own
  {
    set p | p in PiecesOf(peer) && p !in own.Pieces() && p < 8 * |own.bfield|
  }

  /** The thread after a BitField message and the snapshot of the node's own field. */
  function Looked(cfg: Config, me: nat, n: Node, t: Thread, m: Message): (t': Thread)
    requires 0 < cfg.maxsz && m.BitField? && cfg.len <= m.len && !t.fieldRead
    ensures t'.pc == Marking(0)
  {
    Local(cfg, me, n, Dispatch(cfg, me, n, t, m, [], []), [], Diff).1
  }

  /** The protocol's steps for a BitField: the message, the snapshot, the loop's rounds, the decision. */
  ghost function FieldSteps(cfg: Config, me: nat, n: Node, t: Thread, m: Message, order: seq<nat>): (Node, Thread)
    requires 0 < cfg.maxsz && m.BitField? && cfg.len <= m.len && !t.fieldRead
  {
    var (n', t') := Earmarking.MarkUpto(n, Looked(cfg, me, n, t, m), 8 * cfg.len);
    (n', Act(cfg, t', order))
  }

  /** The protocol's steps for a Request: the message with its bit test, then the get and what is sent. */
  ghost function RequestSteps(cfg: Config, me: nat, n: Node, t: Thread, p: nat, order: seq<nat>, loaded: Bytes)
    : (Node, Thread)
    requires 0 < cfg.maxsz && IsOrder(order, t.reqs)
    requires p in n.have ==> Mapped(n.store.index, Pos(p, cfg.pcsz))
                             || ReadInto(loaded, n.store.file, Pos(p, cfg.pcsz), cfg.pcsz)
  {
    var t1 := Dispatch(cfg, me, n, t, Request(p), [], []);
    if t1.pc == Failed then (n, t1) else Local(cfg, me, n, t1, [], Serve(order, loaded))
  }

  /** The protocol's steps for a Piece: the message with its bit test, then, of a new piece, the put and the flip. */
  ghost function PieceSteps(cfg: Config, me: nat, n: Node, t: Thread, m: Message, piece: Bytes, copy: Bytes)
    : (Node, Thread)
    requires 0 < cfg.maxsz && m.Piece? && (m.pcno in n.have || Printed(copy, View(piece), cfg.pcsz))
  {
    var t1 := Dispatch(cfg, me, n, t, m, [], piece);
    if m.pcno in n.have then (n, t1) else
      var (n2, t2) := Local(cfg, me, n, t1, [], Write(copy));
      Local(cfg, me, n2, t2, [], Publish)
  }

  /** What of a protocol thread a handler object holds. */
  datatype Locals = Locals(accepting: bool, out: seq<Message>, registered: bool, interested: bool, nbrChoked: bool,
                           chokedNode: bool, ntimeouts: nat, requests: nat, peerLen: nat, peerField: set<nat>,
                           reqs: set<nat>)

  function LocalsOf(t: Thread): Locals {
    Locals(t.accepting, t.out, t.registered, t.interested, t.nbrChoked, t.chokedNode, t.ntimeouts, t.requests,
           t.peerLen, t.peerField, t.reqs)
  }

  lemma ActLocals(cfg: Config, t: Thread, order: seq<nat>)
    ensures var v := LocalsOf(t);
      LocalsOf(Act(cfg, t, order)) ==
        if EarmarkResult(cfg, t) then
          v.(reqs := t.reqs + t.diff,
             out := t.out + ([Interested] + if !t.accepting && !t.chokedNode then Requests(order) else []))
        else v.(out := t.out + [NotInterested])
  {
  }

  lemma TimeOutLocals(n: Node, t: Thread, order: seq<nat>)
    ensures var v := LocalsOf(t);
      LocalsOf(TimeOut(n, t, order)) == v.(ntimeouts := v.ntimeouts + 1, out := v.out + (Requests(order) +
        if (v.ntimeouts + 1) % 2 == 0 then Haves(v.peerField, n.store.index.cmap, 0, 8 * v.peerLen) else []))
    ensures LocalsOf(t).ntimeouts == 4 ==> TimeOut(n, t, order).pc == Exit(t).pc
  {
    hide Requests, Haves;
  }

  lemma FieldLocals(cfg: Config, me: nat, n: Node, t: Thread, m: Message)
    requires 0 < cfg.maxsz && m.BitField? && cfg.len <= m.len && !t.fieldRead
    ensures var t1 := Looked(cfg, me, n, t, m);
      && t1.pc == Marking(0) && !t1.last
      && t1.diff == (set p | p in m.pieces && p !in n.have && p < 8 * cfg.len)
      && LocalsOf(t1) == LocalsOf(t).(peerLen := m.len, peerField := m.pieces,
                                      out := t.out + if t.accepting then [BitField(cfg.len, n.have)] else [])
  {
  }

  lemma RequestLocals(cfg: Config, me: nat, n: Node, t: Thread, p: nat, order: seq<nat>, loaded: Bytes)
    requires 0 < cfg.maxsz && IsOrder(order, t.reqs) && t.registered
    requires p in n.have ==> Mapped(n.store.index, Pos(p, cfg.pcsz))
                             || ReadInto(loaded, n.store.file, Pos(p, cfg.pcsz), cfg.pcsz)
    ensures var (n', t') := RequestSteps(cfg, me, n, t, p, order, loaded);
      if p !in n.have then n' == n && t'.pc == Failed else
      && n' == n.(store := CacheModel.Get(n.store, p, loaded, cfg.pcsz, cfg.maxsz))
      && LocalsOf(t') == LocalsOf(t).(requests := t.requests + 1,
           out := t.out + ([Piece(p, View(Strncpy(Served(n.store, Pos(p, cfg.pcsz), loaded))))]
                           + if t.chokedNode then [] else Requests(order)))
  {
    hide IsOrder, ReadInto, CacheModel.Get, Served, View, Strncpy, Requests;
  }

  lemma PieceLocals(cfg: Config, me: nat, n: Node, t: Thread, m: Message, piece: Bytes, copy: Bytes)
    requires 0 < cfg.maxsz && m.Piece? && (m.pcno in n.have || Printed(copy, View(piece), cfg.pcsz))
    ensures var (n', t') := PieceSteps(cfg, me, n, t, m, piece, copy);
      && LocalsOf(t') == LocalsOf(t).(reqs := t.reqs - {m.pcno})
      && if m.pcno in n.have then n' == n
         else n' == n.(have := n.have + {m.pcno}, adds := n'.adds,
                       store := CacheModel.Put(n.store, m.pcno, piece, copy, cfg.pcsz, cfg.maxsz))
  {
    hide Printed, View, CacheModel.Put;
  }

  /** The locals of a handler thread and its neighbour's entry, and what it shares with the node's other threads. */
  class Handler {
    const me: nat
    const accepting: bool
    const sock: Socket
    const ost: ObjStore
    const nmap: Earmarking.NbrMap
    var registered: bool
    var interested: bool
    var nbrChoked: bool
    var chokedNode: bool
    var ntimeouts: nat
    var requests: nat
    var peerField: seq<bv8>
    var reqs: map<nat, bool>

    constructor (me: nat, accepting: bool, sock: Socket, ost: ObjStore, nmap: Earmarking.NbrMap)
      ensures this.me == me && this.accepting == accepting
      ensures this.sock == sock && this.ost == ost && this.nmap == nmap
      ensures Shows(NewThread(accepting).(out := sock.out))
    {
      this.me, this.accepting, this.sock, this.ost, this.nmap := me, accepting, sock, ost, nmap;
      registered, interested, nbrChoked, chokedNode, ntimeouts, requests := false, false, false, false, 0, 0;
      peerField, reqs := [], map[];
    }

    /** The object's locals and socket are those of the protocol's thread `t`. */
    ghost predicate Shows(t: Thread)
      reads this, sock
    {
      LocalsOf(t) == Locals(accepting, sock.out, registered, interested, nbrChoked, chokedNode, ntimeouts,
                            requests, |peerField|, PiecesOf(peerField), reqs.Keys)
    }

    /** The shared store and earmarks are those of the protocol's node `n`. */
    ghost predicate ShowsNode(cfg: Config, n: Node)
      reads this, ost, ost.cache, ost.bfield, nmap, nmap.field
    {
      && cfg.len == |ost.bfield.bfield| && cfg.pcsz == ost.cache.pcsz && cfg.maxsz == ost.cache.maxsz > 0
      && cfg.earmark.LastOutcome?
      && n.have == ost.bfield.Pieces() && n.store == ost.cache.State() && n.mark == nmap.field.Pieces()
    }

    /** `choke_status_check`: the neighbour's status goes out when it differs from what the caller passes. */
    method ChokeStatusCheck(chokedPeer: bool, ghost t: Thread)
      requires Shows(t)
      modifies sock
      ensures sock.out == old(sock.out) +
        if registered && nbrChoked != chokedPeer then [if nbrChoked then Choke else UnChoke] else []
      ensures !chokedPeer ==> Shows(Send(t, ChokeStatus(t)))
    {
      if registered && chokedPeer != nbrChoked {
        sock.Snd(if nbrChoked then Choke else UnChoke);
      }
    }

    /** `send_bfield`. */
    method SendBfield()
      modifies sock
      ensures sock.out == old(sock.out) + [BitField(|ost.bfield.bfield|, ost.bfield.Pieces())]
    {
      var vec := ost.bfield.Clone();
      var pieces := PiecesIn(vec);
      sock.Snd(BitField(|vec|, pieces));
    }

    /** Before the loop: who dialled introduces itself and advertises what it has now; who accepted waits. */
    method Start(ghost cfg: Config, ghost n: Node, ghost t: Thread)
      requires Shows(t) && ShowsNode(cfg, n) && t.pc == NewThread(accepting).pc
      modifies sock
      ensures sock.out == old(sock.out) +
        if accepting then [] else [Handshake(me), BitField(|ost.bfield.bfield|, ost.bfield.Pieces())]
      ensures Shows(if accepting then t else Local(cfg, me, n, t, [], Begin).1)
    {
      if !accepting {
        sock.Snd(Handshake(me));
        SendBfield();
      }
    }

    /** The Handshake case: a fresh neighbour, and an acceptor's own handshake. */
    method OnHandshake(peerid: nat, ghost cfg: Config, ghost n: Node, ghost t: Thread)
      requires Shows(t)
      modifies this`registered, this`interested, this`nbrChoked, this`requests, sock
      ensures registered && !interested && !nbrChoked && requests == 0
      ensures sock.out == old(sock.out) + if accepting then [Handshake(me)] else []
      ensures Shows(Dispatch(cfg, me, n, t, Handshake(peerid), [], []))
    {
      if accepting {
        sock.Snd(Handshake(me));
      }
      registered, interested, nbrChoked, requests := true, false, false, 0;
    }

    /** The Choke case. */
    method OnChoke(ghost cfg: Config, ghost n: Node, ghost t: Thread)
      requires Shows(t)
      modifies this`chokedNode
      ensures chokedNode && Shows(Dispatch(cfg, me, n, t, Choke, [], []))
    {
      chokedNode := true;
    }

    /** The UnChoke case: everything outstanding is asked for again. */
    method OnUnChoke(ghost cfg: Config, ghost n: Node, ghost t: Thread) returns (ghost order: seq<nat>)
      requires Shows(t)
      modifies this`chokedNode, sock
      ensures !chokedNode && IsOrder(order, reqs.Keys) && sock.out == old(sock.out) + Requests(order)
      ensures Shows(Dispatch(cfg, me, n, t, UnChoke, order, []))
    {
      hide IsOrder, PiecesOf, Requests;
      chokedNode := false;
      order := SendRequests(sock, reqs);
    }

    /** The Interested and NotInterested cases. */
    method OnInterest(said: bool, ghost cfg: Config, ghost n: Node, ghost t: Thread)
      requires Shows(t) && registered
      modifies this`interested
      ensures interested == said
      ensures Shows(Dispatch(cfg, me, n, t, if said then Interested else NotInterested, [], []))
    {
      interested := said;
    }

    /** The Have case. */
    method OnHave(pcno: nat, ghost cfg: Config, ghost n: Node, ghost t: Thread)
      requires Shows(t)
      modifies sock
      ensures sock.out == old(sock.out) + if pcno in reqs then [Interested, Request(pcno)] else []
      ensures Shows(Dispatch(cfg, me, n, t, Have(pcno), [], []))
    {
      HandleHave(sock, pcno, reqs);
    }

    /** What the node's unchoking thread does to the neighbour it picks. */
    method ClearChoked(ghost cfg: Config, ghost n: Node, ghost t: Thread)
      requires Shows(t) && 0 < cfg.maxsz && Enabled(cfg, n, t, [], Unchoke)
      modifies this`nbrChoked
      ensures !nbrChoked && Shows(Local(cfg, me, n, t, [], Unchoke).1)
    {
      nbrChoked := false;
    }

    /**
     The BitField case: the wanted pieces still free become earmarked, and become requests exactly when earmark's
     return value says so; all told the protocol's steps for the message.
     */
    method OnBitField(peer: seq<bv8>, ghost cfg: Config, ghost n: Node, ghost t: Thread) returns (ghost order: seq<nat>)
      requires |ost.bfield.bfield| <= |peer| && |ost.bfield.bfield| <= |nmap.field.bfield| && ost.bfield != nmap.field
      requires Shows(t) && ShowsNode(cfg, n) && !t.fieldRead
      modifies this`peerField, this`reqs, sock, nmap.field
      ensures peerField == peer
      ensures nmap.field.Pieces() == old(nmap.field.Pieces()) + WantedFrom(peer, ost.bfield)
      ensures
        var free := WantedFrom(peer, ost.bfield) - old(nmap.field.Pieces());
        var won := Earmarking.LastWon(WantedFrom(peer, ost.bfield), old(nmap.field.Pieces()), 8 * |ost.bfield.bfield|);
        reqs.Keys == old(reqs.Keys) + if won then free else {}
      ensures IsOrder(order, reqs.Keys)
      ensures var won := Earmarking.LastWon(WantedFrom(peer, ost.bfield), old(nmap.field.Pieces()),
                                            8 * |ost.bfield.bfield|);
        sock.out == old(sock.out)
                    + (if accepting then [BitField(|ost.bfield.bfield|, ost.bfield.Pieces())] else [])
                    + (if won then [Interested] + (if !accepting && !chokedNode then Requests(order) else [])
                       else [NotInterested])
      ensures var (n', t') := FieldSteps(cfg, me, n, t, BitField(|peer|, PiecesOf(peer)), order);
        Shows(t') && ShowsNode(cfg, n')
    {
      hide PiecesOf, Earmarking.LastWon, IsOrder, Earmarking.MarkUpto, Act, Looked, Requests;
      ghost var m := BitField(|peer|, PiecesOf(peer));
      ghost var t1 := Looked(cfg, me, n, t, m);
      ghost var (n2, t2) := Earmarking.MarkUpto(n, t1, 8 * cfg.len);
      FieldLocals(cfg, me, n, t, m);
      assert t1.diff == WantedFrom(peer, ost.bfield);
      Earmarking.MarkUptoFrame(cfg, n, t1, 8 * cfg.len);
      Earmarking.UninterruptedMarking(n, t1, 8 * cfg.len);
      peerField := peer;
      if accepting {
        SendBfield();
      }
      var won, diff := nmap.Earmark(ost.bfield, peer);
      order := OnEarmarked(won, diff, cfg, t2);
    }

    /** What follows earmark, on the value it returned: the protocol's decision. */
    method OnEarmarked(won: bool, diff: seq<bv8>, ghost cfg: Config, ghost t: Thread)
      returns (ghost order: seq<nat>)
      requires Shows(t) && t.diff == PiecesOf(diff) && EarmarkResult(cfg, t) == won
      modifies this`reqs, sock
      ensures reqs.Keys == old(reqs.Keys) + if won then PiecesOf(diff) else {}
      ensures sock.out == old(sock.out)
                          + if won then [Interested] + (if !accepting && !chokedNode then Requests(order) else [])
                            else [NotInterested]
      ensures IsOrder(order, reqs.Keys) && Shows(Act(cfg, t, order))
    {
      hide PiecesOf, IsOrder, Act, Requests, EarmarkResult;
      if won {
        sock.Snd(Interested);
        reqs := DiffToReqs(reqs, diff);
        if !accepting && !chokedNode {
          order := SendRequests(sock, reqs);
        } else {
          order := SomeOrder(reqs.Keys);
        }
      } else {
        sock.Snd(NotInterested);
        order := SomeOrder(reqs.Keys);
      }
      ActLocals(cfg, t, order);
    }

    /** A receive timeout: requests again, haves every second time, and `true` when the loop is to be left. */
    method OnTimeout(ghost n: Node, ghost t: Thread) returns (leave: bool, ghost order: seq<nat>)
      requires Shows(t) && n.store.index.cmap == ost.cache.cmap
      modifies this`ntimeouts, sock
      ensures ntimeouts == old(ntimeouts) + 1 && (leave <==> ntimeouts == 5)
      ensures IsOrder(order, reqs.Keys)
      ensures sock.out == old(sock.out) + Requests(order)
        + if ntimeouts % 2 == 0 then Haves(PiecesOf(peerField), ost.cache.cmap, 0, 8 * |peerField|) else []
      ensures Shows(TimeOut(n, t, order)) && (leave ==> TimeOut(n, t, order).pc == Exit(t).pc)
    {
      hide PiecesOf, IsOrder, TimeOut, Requests, Haves, Exit, LocalsOf;
      ghost var before, haves := sock.out, [];
      order := SendRequests(sock, reqs);
      ntimeouts := ntimeouts + 1;
      leave := false;
      if ntimeouts % 2 == 0 {
        SendHaves(sock, ost.cache.cmap, peerField);
        haves := Haves(PiecesOf(peerField), ost.cache.cmap, 0, 8 * |peerField|);
      } else if ntimeouts == 5 {
        leave := true;
      }
      assert sock.out == before + (Requests(order) + haves);
      TimeOutLocals(n, t, order);
    }

    /** The Request case: the piece if the store has it (`false` is the exit), then this thread's own requests. */
    method OnRequest(pcno: nat, ghost cfg: Config, ghost n: Node, ghost t: Thread)
      returns (ok: bool, ghost order: seq<nat>, ghost loaded: Bytes)
      requires ost.Valid() && pcno < 8 * |ost.bfield.bfield| && registered && Shows(t) && ShowsNode(cfg, n)
      modifies this`requests, sock, ost.cache
      ensures ost.Valid() && ost.cache.file == old(ost.cache.file) && requests == old(requests) + 1
      ensures ok <==> pcno in ost.bfield.Pieces()
      ensures IsOrder(order, reqs.Keys)
      ensures ok ==> sock.out == old(sock.out) + [Piece(pcno, ost.Text(pcno))]
                                 + if chokedNode then [] else Requests(order)
      ensures pcno in n.have ==> Mapped(n.store.index, Pos(pcno, cfg.pcsz))
                                 || ReadInto(loaded, n.store.file, Pos(pcno, cfg.pcsz), cfg.pcsz)
      ensures var (n', t') := RequestSteps(cfg, me, n, t, pcno, order, loaded);
        if ok then Shows(t') && ShowsNode(cfg, n') else t'.pc == Failed
    {
      hide IsOrder, PiecesOf, RequestSteps, Requests, CacheModel.Get, Served, Strncpy, View, ReadInto;
      hide Coherent, Readable, Region, Mapped;
      requests := requests + 1;
      ok, loaded := SendPiece(sock, pcno, ost);
      if ok && !chokedNode {
        order := SendRequests(sock, reqs);
      } else {
        order := SomeOrder(reqs.Keys);
      }
      RequestLocals(cfg, me, n, t, pcno, order, loaded);
    }

    /** The Piece case. */
    method OnPiece(pcno: nat, payload: Bytes, ghost cfg: Config, ghost n: Node, ghost t: Thread)
      returns (ghost piece: Bytes, ghost copy: Bytes)
      requires ost.Valid() && pcno < 8 * |ost.bfield.bfield| && Shows(t) && ShowsNode(cfg, n)
      requires nmap.field != ost.bfield
      modifies this`reqs, ost.cache, ost.bfield
      ensures ost.Valid() && reqs == old(reqs) - {pcno}
      ensures ost.bfield.Pieces() == old(ost.bfield.Pieces()) + {pcno}
      ensures pcno !in n.have ==> ost.Text(pcno) == View(payload)[..Min(|View(payload)|, cfg.pcsz - 1)]
      ensures Printed(piece, View(payload), cfg.pcsz)
      ensures pcno in n.have || Printed(copy, View(piece), cfg.pcsz)
      ensures var (n', t') := PieceSteps(cfg, me, n, t, Piece(pcno, payload), piece, copy);
        Shows(t') && ShowsNode(cfg, n')
    {
      hide PiecesOf, Printed, View, CacheModel.Put, PieceSteps;
      reqs, piece, copy := HandlePiece(ost, pcno, payload, reqs);
      PieceLocals(cfg, me, n, t, Piece(pcno, payload), piece, copy);
    }
  }

  /** The pieces of a vector, by the loop's enumeration. */
  method PiecesIn(v: seq<bv8>) returns (s: set<nat>)
    ensures s == PiecesOf(v)
  {
    var r := DiffToReqs(map[], v);
    s := r.Keys;
  }
}
