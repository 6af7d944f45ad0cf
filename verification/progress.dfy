/** How far a connection still has to go, and from which states a node can settle. */
module Progress {
  import opened CStrings
  import opened CacheModel
  import opened Protocol
  import opened Invariants
  import opened Steps
  import opened Theorems

  /** The thread is in its loop. */
  predicate Live(t: Thread) {
    t.pc != Closed && t.pc != Crashed
  }

  ghost predicate AsksAny(out: seq<Message>) {
    exists p :: Request(p) in out
  }

  /** Everything outstanding has been asked for. */
  ghost predicate AllAsked(t: Thread) {
    forall p :: p in t.reqs ==> Request(p) in t.out
  }

  ghost predicate PieceIn(out: seq<Message>, p: nat) {
    exists m :: m in out && m.Piece? && m.pcno == p
  }

  /** The thread has taken a request. */
  ghost predicate Prompted(t: Thread, f: Thread) {
    exists k :: 0 <= k < t.taken && k < |f.out| && f.out[k].Request?
  }

  /** Every request taken is answered, or about to be. */
  ghost predicate Replied(t: Thread, f: Thread) {
    forall k :: 0 <= k < t.taken && k < |f.out| && f.out[k].Request? ==>
      PieceIn(t.out, f.out[k].pcno) || t.pc == Serving(f.out[k].pcno)
  }

  /** Every piece taken is no longer outstanding, or about to be added. */
  ghost predicate Absorbed(t: Thread, f: Thread) {
    forall k :: 0 <= k < t.taken && k < |f.out| && f.out[k].Piece? && f.out[k].pcno in t.reqs ==>
      (t.pc.Putting? || t.pc.Flipping?) && t.pc.p == f.out[k].pcno
  }

  /** Who asks, asks for everything: an initiator when it decides, an acceptor once it has asked or been asked. */
  ghost predicate Asked(t: Thread, f: Thread) {
    && (t.reqs != {} && (!t.accepting || AsksAny(t.out)) ==> AllAsked(t))
    && (t.accepting && Prompted(t, f) ==> Acted(t) && (t.pc.Serving? || AllAsked(t)))
  }

  /** Pieces are sent only for requests, and added only when sent. */
  ghost predicate OnlyServed(t: Thread, f: Thread) {
    && (forall p :: PieceIn(t.out, p) ==> Request(p) in f.out)
    && (t.pc.Serving? ==> Request(t.pc.p) in f.out)
    && (t.pc.Putting? || t.pc.Flipping? ==> PieceIn(f.out, t.pc.p))
  }

  /** What has become of each message of a connection. */
  ghost predicate Tracked(t: Thread, f: Thread) {
    && Replied(t, f) && Absorbed(t, f) && Asked(t, f) && OnlyServed(t, f)
    && (Live(t) ==> t.ntimeouts < 5)
  }

  /** The last word on interest among the first `k` messages is Interested. */
  ghost predicate SaidInterested(out: seq<Message>, k: nat) {
    exists i :: 0 <= i < k && i < |out| && out[i] == Interested
      && forall j :: i < j < k && j < |out| ==> out[j] != NotInterested
  }

  function CountRequests(out: seq<Message>, k: nat): nat
    requires k <= |out|
  {
    if k == 0 then 0 else CountRequests(out, k - 1) + if out[k - 1].Request? then 1 else 0
  }

  /** What the thread's neighbour entry says of the messages taken. */
  ghost predicate Noted(t: Thread, f: Thread) {
    && t.taken <= |f.out| && (t.interested <==> SaidInterested(f.out, t.taken))
    && t.requests == CountRequests(f.out, t.taken)
  }

  lemma {:induction false} CountAcross(out: seq<Message>, out': seq<Message>, k: nat)
    requires out <= out' && k <= |out|
    ensures CountRequests(out', k) == CountRequests(out, k)
  {
    if k > 0 {
      CountAcross(out, out', k - 1);
    }
  }

  lemma NotedAcross(t: Thread, f: Thread, f': Thread)
    requires Noted(t, f) && f.out <= f'.out
    ensures Noted(t, f')
  {
    CountAcross(f.out, f'.out, t.taken);
    if SaidInterested(f.out, t.taken) {
      var i :| 0 <= i < t.taken && i < |f.out| && f.out[i] == Interested
        && forall j :: i < j < t.taken && j < |f.out| ==> f.out[j] != NotInterested;
      assert f'.out[i] == Interested;
    }
    if SaidInterested(f'.out, t.taken) {
      var i :| 0 <= i < t.taken && i < |f'.out| && f'.out[i] == Interested
        && forall j :: i < j < t.taken && j < |f'.out| ==> f'.out[j] != NotInterested;
      assert f.out[i] == Interested;
    }
  }

  /** The last word after one more message. */
  lemma SaidNext(out: seq<Message>, k: nat)
    requires k < |out|
    ensures SaidInterested(out, k + 1) <==>
      out[k] == Interested || (out[k] != NotInterested && SaidInterested(out, k))
  {
    if SaidInterested(out, k) && out[k] != NotInterested {
      var i :| 0 <= i < k && i < |out| && out[i] == Interested
        && forall j :: i < j < k && j < |out| ==> out[j] != NotInterested;
      assert i < k + 1;
    }
    if out[k] == Interested {
      assert k < k + 1;
    }
  }

  /** A message case as far as the neighbour's entry goes. */
  lemma DispatchNotes(cfg: Config, me: nat, n: Node, t: Thread, m: Message, order: seq<nat>, piece: Bytes)
    ensures var t' := Dispatch(cfg, me, n, t, m, order, piece);
      t'.pc == Failed
      || (&& t'.taken == t.taken
          && t'.interested == (if m.Handshake? then false else if m.Interested? then true
                               else if m.NotInterested? then false else t.interested)
          && t'.requests == if m.Handshake? then 0 else if m.Request? then t.requests + 1 else t.requests)
  {
    hide Requests;
    match m
    case Handshake(_) =>
    case Choke =>
    case UnChoke =>
    case Interested =>
    case NotInterested =>
    case Have(_) =>
    case BitField(_, _) => DispatchField(cfg, me, n, t, m, order, piece);
    case Request(p) => DispatchRequest(cfg, me, n, t, p, order, piece);
    case Piece(_, _) => DispatchPiece(cfg, me, n, t, m, order, piece);
  }

  lemma ReceiveNoted(cfg: Config, me: nat, n: Node, t: Thread, f: Thread, np: Node, order: seq<nat>, piece: Bytes)
    requires Here(cfg, n, t, f, np) && Noted(t, f) && t.pc == Waiting && t.taken < |f.out|
    ensures var t' := Handle(cfg, me, n, t, f.out[t.taken], order, piece); Noted(t', f) || t'.pc == Failed
  {
    hide Here, Handle, Dispatch, SaidInterested;
    HereSays(cfg, n, t, f, np);
    var m := f.out[t.taken];
    StatusSilent(cfg, me, n, t, m, order, piece);
    DispatchNotes(cfg, me, n, t.(taken := t.taken + 1), m, order, piece);
    SaidNext(f.out, t.taken);
    HandshakeIsFirst(cfg, n, t, f, np);
    NothingSaid(f.out);
  }

  lemma HandshakeIsFirst(cfg: Config, n: Node, t: Thread, f: Thread, np: Node)
    requires Here(cfg, n, t, f, np)
    ensures forall k :: 0 <= k < |f.out| ==> (f.out[k].Handshake? <==> k == 0)
  {
    hide Claims, Busy, Log, Outcome, NodeOk, ValidConfig;
  }

  lemma NothingSaid(out: seq<Message>)
    ensures !SaidInterested(out, 0)
  {
  }

  lemma LocalNoted(cfg: Config, me: nat, n: Node, t: Thread, f: Thread, np: Node, e: Event)
    requires 0 < cfg.maxsz && Here(cfg, n, t, f, np) && Noted(t, f) && Enabled(cfg, n, t, f.out, e)
    ensures var t' := Local(cfg, me, n, t, f.out, e).1; Noted(t', f) || t'.pc == Failed
  {
    hide Here, Noted, Enabled, Local;
    if e.Receive? {
      ReceiveAt(cfg, me, n, t, f, np, e);
    } else {
      LocalKeepsEntry(cfg, me, n, t, f, e);
      NotedSame(t, Local(cfg, me, n, t, f.out, e).1, f);
    }
  }

  lemma ReceiveAt(cfg: Config, me: nat, n: Node, t: Thread, f: Thread, np: Node, e: Event)
    requires 0 < cfg.maxsz && Here(cfg, n, t, f, np) && Noted(t, f) && Enabled(cfg, n, t, f.out, e) && e.Receive?
    ensures var t' := Local(cfg, me, n, t, f.out, e).1; Noted(t', f) || t'.pc == Failed
  {
    hide Here, Noted, Handle, IsOrder, Printed;
    ReceiveNoted(cfg, me, n, t, f, np, e.order, e.piece);
  }

  lemma NotedSame(t: Thread, t': Thread, f: Thread)
    requires Noted(t, f) && t'.taken == t.taken && t'.interested == t.interested && t'.requests == t.requests
    ensures Noted(t', f)
  {
  }

  lemma LocalKeepsEntry(cfg: Config, me: nat, n: Node, t: Thread, f: Thread, e: Event)
    requires 0 < cfg.maxsz && Enabled(cfg, n, t, f.out, e) && !e.Receive?
    ensures var t' := Local(cfg, me, n, t, f.out, e).1;
      t'.taken == t.taken && t'.interested == t.interested && t'.requests == t.requests
  {
    hide IsOrder, Printed, ReadInto, Mapped, Put, Get, Served, Requests, View, Strncpy, MarkBit, TimeOut, Act;
    match e
    case Mark => MarkSilent(cfg, n, t);
    case Decide(order) => ActSame(cfg, t, order);
    case Timeout(order) => TimeOutEntry(n, t, order);
    case _ =>
  }

  lemma TimeOutEntry(n: Node, t: Thread, order: seq<nat>)
    ensures var t' := TimeOut(n, t, order);
      t'.taken == t.taken && t'.interested == t.interested && t'.requests == t.requests
  {
    hide TimeoutSends;
  }

  lemma TrackedAcross(t: Thread, f: Thread, f': Thread)
    requires Tracked(t, f) && t.taken <= |f.out| && f.out <= f'.out
    ensures Tracked(t, f')
  {
    assert forall p :: PieceIn(f.out, p) ==> PieceIn(f'.out, p);
    assert Prompted(t, f') ==> Prompted(t, f);
  }

  /** Appending messages that are neither pieces nor, unless everything is asked for, requests. */
  lemma TrackedSend(t: Thread, t': Thread, f: Thread, ms: seq<Message>)
    requires Tracked(t, f) && t'.out == t.out + ms && t'.taken == t.taken && t'.accepting == t.accepting
    requires t'.reqs == t.reqs && (Acted(t) ==> Acted(t'))
    requires forall m :: m in ms ==> !m.Piece?
    requires AllAsked(t') || forall m :: m in ms ==> !m.Request?
    requires !t.pc.Serving? && !t'.pc.Serving? && !t.pc.Putting? && !t.pc.Flipping?
    requires !t'.pc.Putting? && !t'.pc.Flipping?
    requires Live(t') ==> t'.ntimeouts < 5
    ensures Tracked(t', f)
  {
    assert forall p :: PieceIn(t'.out, p) <==> PieceIn(t.out, p);
    assert AllAsked(t) ==> AllAsked(t');
    assert AsksAny(t'.out) ==> AllAsked(t') || AsksAny(t.out);
    assert Prompted(t', f) <==> Prompted(t, f);
  }

  /** Taking a message that is neither a request nor a piece. */
  lemma TrackedTake(t: Thread, t': Thread, f: Thread)
    requires Tracked(t, f) && t'.out == t.out && t'.taken == t.taken + 1 && t'.accepting == t.accepting
    requires t.taken < |f.out| && !f.out[t.taken].Request? && !f.out[t.taken].Piece?
    requires t'.reqs == t.reqs && t'.pc == t.pc == Waiting && Acted(t') == Acted(t) && t'.ntimeouts == t.ntimeouts
    ensures Tracked(t', f)
  {
    assert Prompted(t', f) ==> Prompted(t, f);
  }

  lemma TakeRequestTracked(t: Thread, t': Thread, f: Thread)
    requires Tracked(t, f) && t.taken < |f.out| && f.out[t.taken].Request? && t.pc == Waiting
    requires t' == t.(taken := t.taken + 1, requests := t'.requests, pc := Serving(f.out[t.taken].pcno))
    requires t.accepting ==> t.fieldRead
    ensures Tracked(t', f)
  {
    assert f.out[t.taken] in f.out;
  }

  lemma TakePieceTracked(t: Thread, t': Thread, f: Thread, piece: Bytes)
    requires Tracked(t, f) && t.taken < |f.out| && f.out[t.taken].Piece? && t.pc == Waiting
    requires var p := f.out[t.taken].pcno; var t0 := t.(taken := t.taken + 1);
      t' == t0.(reqs := t.reqs - {p}) || t' == t0.(pc := Putting(p, piece))
    ensures Tracked(t', f)
  {
    assert Prompted(t', f) ==> Prompted(t, f);
    assert PieceIn(f.out, f.out[t.taken].pcno);
  }

  lemma ServeTracked(t: Thread, t': Thread, f: Thread, payload: Bytes, order: seq<nat>)
    requires Tracked(t, f) && t.pc.Serving? && IsOrder(order, t.reqs)
    requires t' == t.(pc := Waiting, out := t.out + ([Piece(t.pc.p, payload)] + Requests(order)))
    ensures Tracked(t', f)
  {
    var ms := [Piece(t.pc.p, payload)] + Requests(order);
    assert ms[0] in t'.out;
    AsksInOrder(t', order, t.out + [ms[0]]);
    forall p | PieceIn(t'.out, p) ensures PieceIn(t.out, p) || p == t.pc.p {
      var m :| m in t'.out && m.Piece? && m.pcno == p;
      assert m in t.out || m == ms[0] || m in Requests(order);
    }
    assert forall p :: PieceIn(t.out, p) ==> PieceIn(t'.out, p);
    assert Prompted(t', f) <==> Prompted(t, f);
  }

  /** A thread that has just sent its requests has asked for everything. */
  lemma AsksInOrder(t: Thread, order: seq<nat>, before: seq<Message>)
    requires IsOrder(order, t.reqs) && before + Requests(order) <= t.out
    ensures AllAsked(t)
  {
    forall p | p in t.reqs ensures Request(p) in t.out {
      assert p in order;
      var i :| 0 <= i < |order| && order[i] == p;
      assert t.out[|before| + i] == Request(p);
    }
  }

  lemma WriteTracked(t: Thread, t': Thread, f: Thread)
    requires Tracked(t, f) && t.pc.Putting? && t' == t.(pc := Flipping(t.pc.p))
    ensures Tracked(t', f)
  {
    assert Prompted(t', f) <==> Prompted(t, f);
  }

  lemma PublishTracked(t: Thread, t': Thread, f: Thread)
    requires Tracked(t, f) && t.pc.Flipping?
    requires t' == t.(pc := Waiting, reqs := t.reqs - {t.pc.p}, got := t.got + {t.pc.p})
    ensures Tracked(t', f)
  {
    assert Prompted(t', f) <==> Prompted(t, f);
  }

  /** What is sound of a log, of the pieces and requests in it. */
  lemma LogSays(cfg: Config, t: Thread, f: Thread, n: Node)
    requires Log(cfg, t, f, n)
    ensures forall p :: PieceIn(t.out, p) ==> Wants(f, p)
    ensures forall p :: Request(p) in t.out ==> Wants(t, p)
    ensures forall p :: Have(p) in t.out ==> p in t.peerField
    ensures UnChoke !in t.out
  {
    forall m | m in t.out ensures Sound(cfg, m, t, f, n) {
    }
  }

  lemma DecideTracked(cfg: Config, t: Thread, f: Thread, order: seq<nat>)
    requires Tracked(t, f) && t.pc.Marking? && !t.chokedNode && IsOrder(order, t.reqs + t.diff) && t.reqs == {}
    requires (forall p :: !PieceIn(f.out, p)) && !AsksAny(t.out)
    ensures Tracked(Act(cfg, t, order), f)
  {
    hide Tracked, IsOrder, Requests;
    var t' := Act(cfg, t, order);
    if EarmarkResult(cfg, t) {
      var more := if t.accepting then [] else Requests(order);
      if !t.accepting {
        AsksInOrder(t', order, t.out + [Interested]);
      }
      RequestsOnly(order);
      DecidedTracked(t, t', f, [Interested] + more);
    } else {
      DecidedTracked(t, t', f, [NotInterested]);
    }
  }

  lemma DecidedTracked(t: Thread, t': Thread, f: Thread, ms: seq<Message>)
    requires Tracked(t, f) && t.pc.Marking? && t'.pc == Waiting && t'.out == t.out + ms
    requires (forall p :: !PieceIn(f.out, p)) && !AsksAny(t.out)
    requires t'.taken == t.taken && t'.accepting == t.accepting && t'.ntimeouts == t.ntimeouts
    requires forall m :: m in ms ==> !m.Piece? && (m.Request? ==> !t.accepting)
    requires t.accepting || AllAsked(t')
    ensures Tracked(t', f)
  {
    hide AllAsked;
    assert Prompted(t', f) <==> Prompted(t, f);
    assert forall p :: PieceIn(t'.out, p) <==> PieceIn(t.out, p);
    forall k | 0 <= k < |f.out| && f.out[k].Piece? ensures PieceIn(f.out, f.out[k].pcno) {
    }
  }

  // ----- every step keeps track -----

  lemma HereSays(cfg: Config, n: Node, t: Thread, f: Thread, np: Node)
    requires Here(cfg, n, t, f, np)
    ensures t.taken <= |f.out| && f.taken <= |t.out| && !t.chokedNode && !t.nbrChoked
    ensures forall p :: PieceIn(f.out, p) ==> Wants(t, p)
    ensures forall p :: Request(p) in t.out ==> Wants(t, p)
    ensures forall p :: Have(p) in f.out ==> p !in t.reqs
    ensures UnChoke !in f.out
  {
    hide Session, Busy, Log, Outcome, Coherent, Good;
    LogSays(cfg, t, f, n);
    LogSays(cfg, f, t, np);
    SessionTaken(t, f);
    SessionTaken(f, t);
    assert Earmarks(t, n, np);
  }

  lemma SessionTaken(t: Thread, f: Thread)
    requires Session(t, f)
    ensures t.taken <= |f.out|
  {
  }

  /** An acceptor is asked only after it has read the initiator's field. */
  lemma AskedAfterField(cfg: Config, n: Node, t: Thread, f: Thread, np: Node, p: nat)
    requires Here(cfg, n, t, f, np) && t.accepting && Request(p) in f.out
    ensures t.fieldRead
  {
    hide Busy, Log, Outcome, Coherent, Good, NodeOk, HandshakeFirst, OneField, FieldFrom;
    LogSays(cfg, f, t, np);
    WantsWhatPeerHas(f, np, n);
    assert f.fieldRead && FieldIn(t.out, f.taken);
    assert FieldIn(t.out, |t.out|);
  }

  lemma ReceiveTracked(cfg: Config, me: nat, n: Node, t: Thread, f: Thread, np: Node, order: seq<nat>, piece: Bytes)
    requires Here(cfg, n, t, f, np) && Tracked(t, f) && t.pc == Waiting && t.taken < |f.out|
    ensures var t' := Handle(cfg, me, n, t, f.out[t.taken], order, piece); Tracked(t', f) || t'.pc == Failed
  {
    hide Here, Tracked, Handle, Dispatch;
    HereSays(cfg, n, t, f, np);
    StatusSilent(cfg, me, n, t, f.out[t.taken], order, piece);
    match f.out[t.taken]
    case Request(p) => ReceiveRequestTracked(cfg, me, n, t, f, np, order, piece);
    case Piece(p, _) => ReceivePieceTracked(cfg, me, n, t, f, order, piece);
    case _ => ReceiveOtherTracked(cfg, me, n, t, f, np, order, piece);
  }

  lemma ReceiveRequestTracked(cfg: Config, me: nat, n: Node, t: Thread, f: Thread, np: Node, order: seq<nat>,
    piece: Bytes)
    requires Here(cfg, n, t, f, np) && Tracked(t, f)
    requires t.pc == Waiting && t.taken < |f.out| && f.out[t.taken].Request?
    ensures var t' := Dispatch(cfg, me, n, t.(taken := t.taken + 1), f.out[t.taken], order, piece);
      Tracked(t', f) || t'.pc == Failed
  {
    hide Here, Tracked, Dispatch;
    var t0, p := t.(taken := t.taken + 1), f.out[t.taken].pcno;
    var t' := Dispatch(cfg, me, n, t0, Request(p), order, piece);
    DispatchRequest(cfg, me, n, t0, p, order, piece);
    if t'.pc != Failed {
      assert f.out[t.taken] in f.out;
      if t.accepting {
        AskedAfterField(cfg, n, t, f, np, p);
      }
      TakeRequestTracked(t, t', f);
    }
  }

  lemma DispatchRequest(cfg: Config, me: nat, n: Node, t: Thread, p: nat, order: seq<nat>, piece: Bytes)
    ensures var t' := Dispatch(cfg, me, n, t, Request(p), order, piece);
      t' == t.(pc := Failed) || t' == t.(requests := t'.requests, pc := Serving(p))
    ensures var t' := Dispatch(cfg, me, n, t, Request(p), order, piece);
      t'.ntimeouts == t.ntimeouts && t'.accepting == t.accepting && t'.taken == t.taken
  {
  }

  lemma ReceivePieceTracked(cfg: Config, me: nat, n: Node, t: Thread, f: Thread, order: seq<nat>, piece: Bytes)
    requires Tracked(t, f) && t.pc == Waiting && t.taken < |f.out| && f.out[t.taken].Piece?
    ensures Tracked(Dispatch(cfg, me, n, t.(taken := t.taken + 1), f.out[t.taken], order, piece), f)
  {
    hide Tracked;
    var t' := Dispatch(cfg, me, n, t.(taken := t.taken + 1), f.out[t.taken], order, piece);
    TakePieceTracked(t, t', f, piece);
  }

  lemma ReceiveOtherTracked(cfg: Config, me: nat, n: Node, t: Thread, f: Thread, np: Node, order: seq<nat>,
    piece: Bytes)
    requires Here(cfg, n, t, f, np) && Tracked(t, f)
    requires t.pc == Waiting && t.taken < |f.out| && !f.out[t.taken].Request? && !f.out[t.taken].Piece?
    ensures var t' := Dispatch(cfg, me, n, t.(taken := t.taken + 1), f.out[t.taken], order, piece);
      Tracked(t', f) || t'.pc == Failed
  {
    hide Here, Tracked, Dispatch;
    HereSays(cfg, n, t, f, np);
    var m, t0 := f.out[t.taken], t.(taken := t.taken + 1);
    assert m in f.out;
    TrackedTake(t, t0, f);
    TrackedTook(t, f);
    var ms := DispatchOther(cfg, me, n, t0, m, order, piece);
    var t' := Dispatch(cfg, me, n, t0, m, order, piece);
    if t'.pc != Failed {
      TrackedSend(t0, t', f, ms);
    }
  }

  /** What a message that is neither a request nor a piece does: it asks for nothing. */
  lemma DispatchOther(cfg: Config, me: nat, n: Node, t: Thread, m: Message, order: seq<nat>, piece: Bytes)
    returns (ms: seq<Message>)
    requires !m.Request? && !m.Piece? && !m.UnChoke? && (m.Have? ==> m.pcno !in t.reqs) && t.pc == Waiting
    ensures forall x :: x in ms ==> !x.Piece? && !x.Request?
    ensures var t' := Dispatch(cfg, me, n, t, m, order, piece);
      (t'.pc == Failed && t'.out == t.out && t'.reqs == t.reqs)
      || (&& t'.out == t.out + ms && t'.taken == t.taken && t'.accepting == t.accepting && t'.reqs == t.reqs
          && t'.ntimeouts == t.ntimeouts && (t'.pc == Waiting || t'.pc == Diffing) && (Acted(t) ==> Acted(t')))
  {
    ms := if m.Handshake? && t.accepting then [Handshake(me)]
          else if m.BitField? && t.accepting then [BitField(cfg.len, n.have)] else [];
    assert t.out + [] == t.out;
    hide Requests;
    match m
    case Handshake(_) =>
    case Have(_) =>
    case BitField(_, _) =>
    case _ =>
  }

  lemma TrackedTook(t: Thread, f: Thread)
    requires Tracked(t, f)
    ensures Live(t) ==> t.ntimeouts < 5
  {
  }

  lemma TimeoutTracked(n: Node, t: Thread, f: Thread, order: seq<nat>)
    requires Tracked(t, f) && t.pc == Waiting && IsOrder(order, t.reqs)
    ensures Tracked(TimeOut(n, t, order), f)
  {
    hide Tracked, IsOrder, Requests, TimeoutSends, TimeOut, AllAsked;
    var t', ms := TimeOut(n, t, order), TimeoutSends(n, t, order);
    TimeOutSame(n, t, order);
    TimeoutSendsOnly(n, t, order);
    TrackedTook(t, f);
    AsksInOrder(t', order, t.out);
    TrackedSend(t, t', f, ms);
  }

  lemma TimeOutSame(n: Node, t: Thread, order: seq<nat>)
    ensures var t' := TimeOut(n, t, order);
      && t'.out == t.out + TimeoutSends(n, t, order) && t'.taken == t.taken && t'.accepting == t.accepting
      && t'.reqs == t.reqs && t'.fieldRead == t.fieldRead && t'.ntimeouts == t.ntimeouts + 1
      && (if t.ntimeouts == 4 then !Live(t') else t'.pc == t.pc)
      && (t'.pc == t.pc || t'.pc == Exit(t).pc)
  {
    hide TimeoutSends;
  }

  lemma MarkTracked(cfg: Config, n: Node, t: Thread, f: Thread)
    requires Tracked(t, f) && t.pc.Marking?
    ensures Tracked(MarkBit(n, t, t.pc.next).1, f)
  {
    hide Tracked, MarkBit;
    MarkSilent(cfg, n, t);
    TrackedTook(t, f);
    TrackedSend(t, MarkBit(n, t, t.pc.next).1, f, []);
  }

  lemma DecideStepTracked(cfg: Config, n: Node, t: Thread, f: Thread, np: Node, order: seq<nat>)
    requires Here(cfg, n, t, f, np) && Tracked(t, f)
    requires t.pc.Marking? && t.pc.next >= 8 * cfg.len && IsOrder(order, t.reqs + t.diff)
    ensures Tracked(Act(cfg, t, order), f)
  {
    hide Tracked, Act, Claims, Outcome, IsOrder;
    HereSays(cfg, n, t, f, np);
    DecideClaims(cfg, n, t, np, order);
    DecideGranted(cfg, n, t, np);
    hide Here;
    forall p ensures !Wants(t, p) && !PieceIn(f.out, p) && Request(p) !in t.out {
    }
    DecideTracked(cfg, t, f, order);
  }

  /** A step of a thread keeps track of its side of the connection. */
  lemma LocalTracked(cfg: Config, me: nat, n: Node, t: Thread, f: Thread, np: Node, e: Event)
    requires 0 < cfg.maxsz && Here(cfg, n, t, f, np) && Tracked(t, f) && Enabled(cfg, n, t, f.out, e)
    ensures var t' := Local(cfg, me, n, t, f.out, e).1; Tracked(t', f) || t'.pc == Failed
  {
    hide Here, Tracked, IsOrder, Printed, ReadInto, Mapped, Put, Get, Handle, Act, TimeOut, MarkBit, Served, Requests;
    HereSays(cfg, n, t, f, np);
    TrackedTook(t, f);
    var t' := Local(cfg, me, n, t, f.out, e).1;
    match e
    case Begin => TrackedSend(t, t', f, [Handshake(me), BitField(cfg.len, n.have)]);
    case Receive(order, piece) => ReceiveTracked(cfg, me, n, t, f, np, order, piece);
    case Diff => TrackedSend(t, t', f, []);
    case Mark => MarkTracked(cfg, n, t, f);
    case Decide(order) => DecideStepTracked(cfg, n, t, f, np, order);
    case Serve(order, loaded) =>
      ServeTracked(t, t', f, View(Strncpy(Served(n.store, Pos(t.pc.p, cfg.pcsz), loaded))), order);
    case Write(_) => WriteTracked(t, t', f);
    case Publish => PublishTracked(t, t', f);
    case Timeout(order) => TimeoutTracked(n, t, f, order);
    case Hangup => TrackedSend(t, t', f, []);
    case Unchoke =>
  }

  // ----- the whole system -----

  ghost predicate AllTracked(s: System)
    requires WellLinked(s)
  {
    forall l {:trigger Opposite(l)} :: l in s.threads ==>
      Tracked(s.threads[l], s.threads[Opposite(l)]) && Noted(s.threads[l], s.threads[Opposite(l)])
  }

  ghost predicate Accounted(cfg: Config, s: System) {
    Inv(cfg, s) && AllTracked(s)
  }

  lemma StepKeepsAccount(cfg: Config, s: System, s': System, l: Link, e: Event)
    requires Accounted(cfg, s) && StepOf(cfg, s, s', l, e)
    ensures Accounted(cfg, s') && OnlyAt(s, s', l) && s'.threads[l].pc != Failed
    ensures s.threads[l].out <= s'.threads[l].out
  {
    hide Inv, StepOf, StepOk, Tracked, Noted, Here;
    StepOfOk(cfg, s, s', l, e);
    StepOkKeepsInv(cfg, s, s', l);
    StepTracked(cfg, s, s', l, e);
    ThreadAt(cfg, s', l);
    NeverFails(cfg, s'.threads[l], s'.threads[Opposite(l)], s'.nodes[l.self], s'.nodes[l.peer]);
    StepGrows(cfg, s, s', l);
    InvLinked(cfg, s);
    InvLinked(cfg, s');
    forall k {:trigger Opposite(k)} | k in s'.threads
      ensures Tracked(s'.threads[k], s'.threads[Opposite(k)]) && Noted(s'.threads[k], s'.threads[Opposite(k)])
    {
      assert Opposite(Opposite(k)) == k;
      if k == Opposite(l) {
        TrackedOpposite(cfg, s, l);
        NotedAcross(s.threads[k], s.threads[l], s'.threads[l]);
        TrackedAcross(s.threads[k], s.threads[l], s'.threads[l]);
      }
    }
  }

  lemma InvLinked(cfg: Config, s: System)
    requires Inv(cfg, s)
    ensures WellLinked(s)
  {
  }

  lemma NeverFails(cfg: Config, t: Thread, f: Thread, n: Node, np: Node)
    requires ThreadOk(cfg, t, f, n, np)
    ensures t.pc != Failed
  {
    hide Session, Claims, Log, Outcome, Good;
  }

  lemma StepGrows(cfg: Config, s: System, s': System, l: Link)
    requires l in s.threads && l.self in s.nodes && Opposite(l) in s.threads && l.peer in s.nodes && OnlyAt(s, s', l)
    requires StepOk(cfg, s.nodes[l.self], s.threads[l], s'.nodes[l.self], s'.threads[l],
                    s.threads[Opposite(l)], s.nodes[l.peer])
    ensures s.threads[l].out <= s'.threads[l].out
  {
    hide ThreadOk, NodeOk, NodeGrows;
  }

  lemma TrackedOpposite(cfg: Config, s: System, l: Link)
    requires Accounted(cfg, s) && l in s.threads
    ensures Opposite(l) in s.threads && Tracked(s.threads[Opposite(l)], s.threads[l])
    ensures Noted(s.threads[Opposite(l)], s.threads[l])
    ensures s.threads[Opposite(l)].taken <= |s.threads[l].out|
  {
    hide Inv, Tracked, Noted, ThreadOk;
    InvLinked(cfg, s);
    ThreadAt(cfg, s, l);
    assert Opposite(Opposite(l)) == l;
    ThreadAt(cfg, s, Opposite(l));
    TakenOf(cfg, s.threads[Opposite(l)], s.threads[l], s.nodes[l.peer], s.nodes[l.self]);
  }

  lemma TakenOf(cfg: Config, t: Thread, f: Thread, n: Node, np: Node)
    requires ThreadOk(cfg, t, f, n, np)
    ensures t.taken <= |f.out|
  {
    hide Claims, Busy, Log, Outcome;
  }

  lemma StepTracked(cfg: Config, s: System, s': System, l: Link, e: Event)
    requires Accounted(cfg, s) && StepOf(cfg, s, s', l, e)
    ensures s'.threads[l].pc == Failed
      || (Tracked(s'.threads[l], s.threads[Opposite(l)]) && Noted(s'.threads[l], s.threads[Opposite(l)]))
  {
    hide Inv, Here, Tracked, Noted, Enabled, Local;
    InvLinked(cfg, s);
    ThreadAt(cfg, s, l);
    HereAt(cfg, s, l);
    LocalTracked(cfg, l.self, s.nodes[l.self], s.threads[l], s.threads[Opposite(l)], s.nodes[l.peer], e);
    LocalNoted(cfg, l.self, s.nodes[l.self], s.threads[l], s.threads[Opposite(l)], s.nodes[l.peer], e);
  }

  lemma InitAccounted(cfg: Config, s: System)
    requires Init(cfg, s)
    ensures Accounted(cfg, s)
  {
    hide Inv;
    InitInv(cfg, s);
  }

  lemma {:induction false} RunAccounted(cfg: Config, run: seq<System>, i: nat)
    requires Behaviour(cfg, run) && i < |run|
    ensures Accounted(cfg, run[i])
  {
    hide Accounted, Init, StepOf;
    if i == 0 {
      InitAccounted(cfg, run[0]);
    } else {
      RunAccounted(cfg, run, i - 1);
      assert Step(cfg, run[i - 1], run[i - 1 + 1]);
      var l, e :| StepOf(cfg, run[i - 1], run[i], l, e);
      StepKeepsAccount(cfg, run[i - 1], run[i], l, e);
    }
  }

  lemma ReachableAccounted(cfg: Config, s: System)
    requires Reachable(cfg, s)
    ensures Accounted(cfg, s)
  {
    hide Accounted;
    var run :| Behaviour(cfg, run) && s == run[|run| - 1];
    RunAccounted(cfg, run, |run| - 1);
  }

  /**
   In every reachable state: each request a thread has taken is answered or being served, each piece it has taken is no
   longer outstanding or being added, pieces are sent only for requests, and a thread has asked for everything
   outstanding if it dialled, or has asked for anything, or has been asked.
   */
  lemma EverythingTracked(cfg: Config, s: System, l: Link)
    requires Reachable(cfg, s) && l in s.threads
    ensures Opposite(l) in s.threads && Tracked(s.threads[l], s.threads[Opposite(l)])
  {
    hide Inv, Tracked, Noted;
    ReachableAccounted(cfg, s);
    InvLinked(cfg, s);
    assert Opposite(l) in s.threads;
  }

  /**
   In every reachable state a neighbour counts as interested exactly when the last the thread took from it on the
   matter was Interested, and its request count is the number of requests taken.
   */
  lemma NeighbourNoted(cfg: Config, s: System, l: Link)
    requires Reachable(cfg, s) && l in s.threads
    ensures Opposite(l) in s.threads && s.threads[l].taken <= |s.threads[Opposite(l)].out|
    ensures s.threads[l].interested <==> SaidInterested(s.threads[Opposite(l)].out, s.threads[l].taken)
    ensures s.threads[l].requests == CountRequests(s.threads[Opposite(l)].out, s.threads[l].taken)
  {
    hide Inv, Tracked, SaidInterested;
    ReachableAccounted(cfg, s);
    InvLinked(cfg, s);
    assert Opposite(l) in s.threads;
  }

  // ----- continuations -----

  /** A step, with receive timeouts or without. */
  ghost predicate StepIn(cfg: Config, timeouts: bool, s: System, s': System) {
    exists l, e :: StepOf(cfg, s, s', l, e) && (e.Timeout? ==> timeouts)
  }

  /** The system can go from `s` to `s'`. */
  ghost predicate Leads(cfg: Config, timeouts: bool, s: System, s': System) {
    exists run: seq<System> :: run != [] && run[0] == s && run[|run| - 1] == s'
      && forall i :: 0 <= i < |run| - 1 ==> StepIn(cfg, timeouts, run[i], run[i + 1])
  }

  lemma LeadsNowhere(cfg: Config, timeouts: bool, s: System)
    ensures Leads(cfg, timeouts, s, s)
  {
    var run := [s];
    assert run[0] == s && run[|run| - 1] == s;
  }

  lemma LeadsOn(cfg: Config, timeouts: bool, s: System, s1: System, s2: System)
    requires Leads(cfg, timeouts, s, s1) && StepIn(cfg, timeouts, s1, s2)
    ensures Leads(cfg, timeouts, s, s2)
  {
    hide StepIn;
    var run: seq<System> :| run != [] && run[0] == s && run[|run| - 1] == s1
      && forall i :: 0 <= i < |run| - 1 ==> StepIn(cfg, timeouts, run[i], run[i + 1]);
    var longer := run + [s2];
    forall i | 0 <= i < |longer| - 1 ensures StepIn(cfg, timeouts, longer[i], longer[i + 1]) {
      if i < |run| - 1 {
        assert StepIn(cfg, timeouts, run[i], run[i + 1]);
      }
    }
    assert longer[0] == s && longer[|longer| - 1] == s2;
  }

  // ----- a thread can always finish with what it has been sent -----

  /** How many more steps the message in hand takes. */
  function Rank(cfg: Config, pc: Pc): nat {
    match pc
    case Starting => 1
    case Diffing => 8 * cfg.len + 2
    case Marking(k) => if k < 8 * cfg.len then 8 * cfg.len - k + 1 else 1
    case Serving(_) => 1
    case Putting(_, _) => 2
    case Flipping(_) => 1
    case _ => 0
  }

  /** The thread waits, and everything sent to it has been taken. */
  predicate Drained(t: Thread, f: Thread) {
    t.pc == Waiting && t.taken == |f.out|
  }

  /** An ordinary step: no timeout, no hangup, nothing of the unchoking thread's. */
  predicate Ordinary(e: Event) {
    !e.Timeout? && !e.Hangup? && !e.Unchoke?
  }

  lemma SomePrinted(text: Bytes, n: nat) returns (dst: Bytes)
    requires 0 < n
    ensures Printed(dst, text, n)
  {
    var k := Min(|text|, n - 1);
    dst := text[..k] + seq(n - k, _ => 0);
  }

  lemma SomeLoaded(file: Bytes, pos: nat, pcsz: nat) returns (loaded: Bytes)
    ensures ReadInto(loaded, file, pos, pcsz)
  {
    var r := Region(file, pos, pcsz);
    loaded := r + seq(pcsz - |r|, _ => 0);
  }

  lemma NextEvent(cfg: Config, n: Node, t: Thread, f: Thread) returns (e: Event)
    requires ValidConfig(cfg) && Live(t) && t.pc != Failed && t.taken <= |f.out| && !Drained(t, f)
    ensures Enabled(cfg, n, t, f.out, e) && Ordinary(e)
  {
    hide IsOrder, Printed, ReadInto, Mapped, View, Region;
    match t.pc
    case Starting => e := Begin;
    case Waiting =>
      var order := SomeOrder(t.reqs);
      var piece: Bytes := [];
      if f.out[t.taken].Piece? {
        piece := SomePrinted(View(f.out[t.taken].payload), cfg.pcsz);
      }
      e := Receive(order, piece);
    case Diffing => e := Diff;
    case Marking(k) =>
      if k < 8 * cfg.len {
        e := Mark;
      } else {
        var order := SomeOrder(t.reqs + t.diff);
        e := Decide(order);
      }
    case Serving(p) =>
      var order := SomeOrder(t.reqs);
      var loaded := SomeLoaded(n.store.file, Pos(p, cfg.pcsz), cfg.pcsz);
      e := Serve(order, loaded);
    case Putting(p, piece) =>
      var copy := SomePrinted(View(piece), cfg.pcsz);
      e := Write(copy);
    case Flipping(_) => e := Publish;
  }

  lemma LocalAdvances(cfg: Config, me: nat, n: Node, t: Thread, f: Thread, e: Event)
    requires 0 < cfg.maxsz && Enabled(cfg, n, t, f.out, e) && Ordinary(e)
    ensures var t' := Local(cfg, me, n, t, f.out, e).1;
      && (t'.pc == Failed || Live(t')) && t'.ntimeouts == t.ntimeouts && t'.accepting == t.accepting
      && (t'.taken > t.taken || (t'.taken == t.taken && Rank(cfg, t'.pc) < Rank(cfg, t.pc)))
  {
    hide IsOrder, Printed, ReadInto, Mapped, Put, Get, Served, Requests, Handle, View, Strncpy, MarkBit, Act;
    match e
    case Receive(order, piece) => HandleAdvances(cfg, me, n, t, f.out[t.taken], order, piece);
    case Mark => MarkSilent(cfg, n, t);
    case Decide(order) => ActSame(cfg, t, order);
    case _ =>
  }

  lemma ActSame(cfg: Config, t: Thread, order: seq<nat>)
    ensures var t' := Act(cfg, t, order);
      && t'.pc == Waiting && t'.taken == t.taken && t'.ntimeouts == t.ntimeouts && t'.accepting == t.accepting
      && t'.interested == t.interested && t'.requests == t.requests
  {
    hide Requests, EarmarkResult;
    if EarmarkResult(cfg, t) {
    } else {
    }
  }

  lemma HandleAdvances(cfg: Config, me: nat, n: Node, t: Thread, m: Message, order: seq<nat>, piece: Bytes)
    requires t.pc == Waiting
    ensures var t' := Handle(cfg, me, n, t, m, order, piece);
      && (t'.pc == Failed || Live(t')) && t'.ntimeouts == t.ntimeouts && t'.accepting == t.accepting
      && t'.taken == t.taken + 1
  {
    hide Dispatch;
    DispatchAdvances(cfg, me, n, Send(t.(taken := t.taken + 1), ChokeStatus(t)), m, order, piece);
  }

  lemma DispatchAdvances(cfg: Config, me: nat, n: Node, t: Thread, m: Message, order: seq<nat>, piece: Bytes)
    requires t.pc == Waiting
    ensures var t' := Dispatch(cfg, me, n, t, m, order, piece);
      && (t'.pc == Failed || Live(t')) && t'.ntimeouts == t.ntimeouts && t'.accepting == t.accepting
      && t'.taken == t.taken
  {
    hide Dispatch;
    match m
    case Request(p) => DispatchRequest(cfg, me, n, t, p, order, piece);
    case Piece(_, _) => DispatchPiece(cfg, me, n, t, m, order, piece);
    case BitField(_, _) => DispatchField(cfg, me, n, t, m, order, piece);
    case _ => DispatchPlain(cfg, me, n, t, m, order, piece);
  }

  lemma DispatchPlain(cfg: Config, me: nat, n: Node, t: Thread, m: Message, order: seq<nat>, piece: Bytes)
    requires !m.Request? && !m.Piece? && !m.BitField?
    ensures var t' := Dispatch(cfg, me, n, t, m, order, piece);
      && (t'.pc == Failed || t'.pc == t.pc) && t'.ntimeouts == t.ntimeouts && t'.accepting == t.accepting
      && t'.taken == t.taken
  {
    hide Requests;
    match m
    case Handshake(_) =>
    case Choke =>
    case UnChoke =>
    case Interested =>
    case NotInterested =>
    case Have(_) =>
  }

  lemma DispatchPiece(cfg: Config, me: nat, n: Node, t: Thread, m: Message, order: seq<nat>, piece: Bytes)
    requires m.Piece?
    ensures var t' := Dispatch(cfg, me, n, t, m, order, piece);
      t' == t.(reqs := t.reqs - {m.pcno}) || t' == t.(pc := Putting(m.pcno, piece))
    ensures var t' := Dispatch(cfg, me, n, t, m, order, piece);
      && t'.ntimeouts == t.ntimeouts && t'.accepting == t.accepting && t'.taken == t.taken
      && (t'.pc == t.pc || t'.pc.Putting?)
  {
  }

  lemma DispatchField(cfg: Config, me: nat, n: Node, t: Thread, m: Message, order: seq<nat>, piece: Bytes)
    requires m.BitField?
    ensures var t' := Dispatch(cfg, me, n, t, m, order, piece);
      t'.pc == Failed || (t'.pc == Diffing && t' == t.(pc := t'.pc, fieldRead := true, peerLen := t'.peerLen,
                                                        peerField := t'.peerField, out := t'.out))
    ensures var t' := Dispatch(cfg, me, n, t, m, order, piece);
      t'.ntimeouts == t.ntimeouts && t'.accepting == t.accepting && t'.taken == t.taken
  {
  }

  /** A continuation of `s0` that has come to `s`. */
  ghost predicate At(cfg: Config, timeouts: bool, s0: System, s: System) {
    Leads(cfg, timeouts, s0, s) && Accounted(cfg, s)
  }

  /** Only thread `l` and its node have moved: it is in its loop, has sent more, and has no more outstanding. */
  ghost predicate Moved(s: System, s': System, l: Link)
    requires l in s.threads
  {
    OnlyAt(s, s', l) && var t, t' := s.threads[l], s'.threads[l];
      && Live(t') && t'.accepting == t.accepting && t.out <= t'.out
      && (Acted(t) ==> Acted(t') && t'.reqs <= t.reqs)
  }

  lemma Go(cfg: Config, timeouts: bool, s0: System, s: System, l: Link, e: Event) returns (s': System)
    requires At(cfg, timeouts, s0, s) && l in s.threads && Opposite(l) in s.threads && l.self in s.nodes
    requires 0 < cfg.maxsz && Enabled(cfg, s.nodes[l.self], s.threads[l], s.threads[Opposite(l)].out, e)
    requires e.Timeout? ==> timeouts
    ensures At(cfg, timeouts, s0, s') && OnlyAt(s, s', l) && s.threads[l].out <= s'.threads[l].out
    ensures s'.threads[l] == Local(cfg, l.self, s.nodes[l.self], s.threads[l], s.threads[Opposite(l)].out, e).1
    ensures s'.threads[l].pc != Failed
  {
    hide Leads, Accounted, Enabled, Local;
    var (n, t) := Local(cfg, l.self, s.nodes[l.self], s.threads[l], s.threads[Opposite(l)].out, e);
    s' := System(s.nodes[l.self := n], s.threads[l := t]);
    assert StepOf(cfg, s, s', l, e);
    StepKeepsAccount(cfg, s, s', l, e);
    LeadsOn(cfg, timeouts, s0, s, s');
  }

  lemma Advance(cfg: Config, timeouts: bool, s0: System, s: System, l: Link) returns (s': System)
    requires At(cfg, timeouts, s0, s) && l in s.threads && Opposite(l) in s.threads && l.self in s.nodes
    requires Live(s.threads[l]) && !Drained(s.threads[l], s.threads[Opposite(l)])
    ensures At(cfg, timeouts, s0, s') && Moved(s, s', l)
    ensures var t, t' := s.threads[l], s'.threads[l];
      && t'.ntimeouts == t.ntimeouts && t'.taken <= |s.threads[Opposite(l)].out|
      && (t'.taken > t.taken || (t'.taken == t.taken && Rank(cfg, t'.pc) < Rank(cfg, t.pc)))
  {
    hide Leads, Inv, Enabled, Local, ThreadOk, AllTracked, Rank;
    var n, t, f := s.nodes[l.self], s.threads[l], s.threads[Opposite(l)];
    ConfigOf(cfg, s);
    InBounds(cfg, s, l);
    var e := NextEvent(cfg, n, t, f);
    LocalAdvances(cfg, l.self, n, t, f, e);
    s' := Go(cfg, timeouts, s0, s, l, e);
    if Acted(t) {
      LocalShrinks(cfg, l.self, n, t, f.out, e);
    }
    InBounds(cfg, s', l);
  }

  lemma ConfigOf(cfg: Config, s: System)
    requires Inv(cfg, s)
    ensures ValidConfig(cfg)
  {
  }

  lemma InBounds(cfg: Config, s: System, l: Link)
    requires Accounted(cfg, s) && l in s.threads
    ensures Opposite(l) in s.threads && l.self in s.nodes && l.peer in s.nodes && l.self != l.peer
    ensures s.threads[l].taken <= |s.threads[Opposite(l)].out| && s.threads[l].pc != Failed
    ensures s.threads[l].accepting != s.threads[Opposite(l)].accepting
  {
    hide ThreadOk, NodeOk, AllTracked;
    ThreadAt(cfg, s, l);
    TakenOf(cfg, s.threads[l], s.threads[Opposite(l)], s.nodes[l.self], s.nodes[l.peer]);
    NeverFails(cfg, s.threads[l], s.threads[Opposite(l)], s.nodes[l.self], s.nodes[l.peer]);
    assert Opposite(l) in s.threads;
  }

  /** Left alone to do so, a thread takes everything it has been sent. */
  lemma {:induction false} Drain(cfg: Config, timeouts: bool, s0: System, s: System, l: Link) returns (s': System)
    requires At(cfg, timeouts, s0, s) && l in s.threads && Opposite(l) in s.threads && l.self in s.nodes
    requires Live(s.threads[l]) && s.threads[l].taken <= |s.threads[Opposite(l)].out|
    ensures At(cfg, timeouts, s0, s') && Moved(s, s', l)
    ensures Drained(s'.threads[l], s'.threads[Opposite(l)]) && s'.threads[l].ntimeouts == s.threads[l].ntimeouts
    decreases |s.threads[Opposite(l)].out| - s.threads[l].taken, Rank(cfg, s.threads[l].pc)
  {
    hide At, Rank, Acted;
    var f := s.threads[Opposite(l)];
    assert OnlyAt(s, s, l);
    if Drained(s.threads[l], f) {
      s' := s;
    } else {
      NotOwnOpposite(cfg, timeouts, s0, s, l);
      var s1 := Advance(cfg, timeouts, s0, s, l);
      s' := Drain(cfg, timeouts, s0, s1, l);
    }
  }

  lemma NotOwnOpposite(cfg: Config, timeouts: bool, s0: System, s: System, l: Link)
    requires At(cfg, timeouts, s0, s) && l in s.threads
    ensures Opposite(l) != l
  {
    hide AllTracked, Leads;
    InBounds(cfg, s, l);
  }

  // ----- settling one connection -----

  /**
   What a thread needs to get all it has outstanding: nothing if that is nothing already; an initiator has asked for
   it; an acceptor has to have asked, or to be asked, or to have a timeout left.
   */
  ghost predicate CanSettle(t: Thread, f: Thread, timeouts: bool) {
    (Acted(t) && t.reqs == {}) || !t.accepting || AsksAny(t.out) || AsksAny(f.out) || (timeouts && t.ntimeouts < 4)
  }

  /** Once both ends have taken everything, first the peer, the thread has read the peer's field. */
  lemma FieldArrives(cfg: Config, n: Node, t: Thread, f: Thread, np: Node, before: seq<Message>)
    requires ThreadOk(cfg, t, f, n, np) && ThreadOk(cfg, f, t, np, n) && t.accepting != f.accepting
    requires Drained(t, f) && f.pc == Waiting && before <= t.out && f.taken == |before|
    requires !t.accepting ==> |before| >= 2
    ensures Acted(t)
  {
    hide Claims, Busy, Log, Outcome, HandshakeFirst, OneField, FieldFrom;
    if t.accepting {
      assert f.out[1].BitField?;
      assert FieldIn(f.out, t.taken);
    } else {
      assert t.out[1].BitField? && before[1] == t.out[1];
      assert FieldIn(t.out, f.taken);
      assert FieldIn(f.out, |f.out|);
    }
  }

  lemma InitiatorHasSent(cfg: Config, t: Thread, f: Thread, n: Node, np: Node)
    requires ThreadOk(cfg, t, f, n, np) && !t.accepting && t.pc == Waiting
    ensures |t.out| >= 2
  {
    hide Claims, Busy, Log, Outcome;
  }

  /** The two threads of a connection and their nodes are all that has moved. */
  ghost predicate OnlyBetween(s: System, s': System, l: Link) {
    && s'.nodes.Keys == s.nodes.Keys && s'.threads.Keys == s.threads.Keys
    && forall k :: k in s.threads && k != l && k != Opposite(l) ==> s'.threads[k] == s.threads[k]
  }

  /** Both ends take everything in turn, until the thread has acted on its peer's field. */
  lemma Exchange(cfg: Config, timeouts: bool, s0: System, s: System, l: Link) returns (s': System)
    requires At(cfg, timeouts, s0, s) && {l, Opposite(l)} <= s.threads.Keys
    requires Live(s.threads[l]) && Live(s.threads[Opposite(l)])
    ensures At(cfg, timeouts, s0, s') && OnlyBetween(s, s', l) && {l, Opposite(l)} <= s'.threads.Keys
    ensures var t, t', f, f' := s.threads[l], s'.threads[l], s.threads[Opposite(l)], s'.threads[Opposite(l)];
      && Acted(t') && Drained(t', f') && Live(f') && t'.ntimeouts == t.ntimeouts && t'.accepting == t.accepting
      && t.out <= t'.out && f.out <= f'.out
  {
    hide Leads, Inv, AllTracked, ThreadOk, Acted, NodeOk, Claims;
    var o := Opposite(l);
    InBounds(cfg, s, l);
    var s1 := Drain(cfg, timeouts, s0, s, l);
    InBounds(cfg, s1, o);
    var s2 := Drain(cfg, timeouts, s0, s1, o);
    InBounds(cfg, s2, l);
    s' := Drain(cfg, timeouts, s0, s2, l);
    ThreadAt(cfg, s1, l);
    ThreadAt(cfg, s', l);
    ThreadAt(cfg, s', o);
    if !s1.threads[l].accepting {
      InitiatorHasSent(cfg, s1.threads[l], s1.threads[o], s1.nodes[l.self], s1.nodes[l.peer]);
    }
    InBounds(cfg, s', l);
    FieldArrives(cfg, s'.nodes[l.self], s'.threads[l], s'.threads[o], s'.nodes[l.peer], s1.threads[l].out);
  }

  lemma AskedOf(t: Thread, f: Thread)
    requires Tracked(t, f) && Drained(t, f) && (!t.accepting || AsksAny(t.out) || AsksAny(f.out))
    ensures AllAsked(t)
  {
    if t.accepting && AsksAny(f.out) {
      var p :| Request(p) in f.out;
      assert Prompted(t, f);
    }
  }

  /** A waiting thread may always time out or find its peer gone. */
  lemma MayTimeOut(cfg: Config, n: Node, t: Thread, inbox: seq<Message>) returns (order: seq<nat>)
    requires t.pc == Waiting
    ensures IsOrder(order, t.reqs) && Enabled(cfg, n, t, inbox, Timeout(order)) && Enabled(cfg, n, t, inbox, Hangup)
  {
    order := SomeOrder(t.reqs);
  }

  /** The thread sees to it that it has asked for all it has outstanding. */
  lemma Ask(cfg: Config, timeouts: bool, s0: System, s: System, l: Link) returns (s': System)
    requires At(cfg, timeouts, s0, s) && {l, Opposite(l)} <= s.threads.Keys
    requires var t, f := s.threads[l], s.threads[Opposite(l)];
      && Acted(t) && Drained(t, f)
      && (!t.accepting || AsksAny(t.out) || AsksAny(f.out) || (timeouts && t.ntimeouts < 4))
    ensures At(cfg, timeouts, s0, s') && OnlyAt(s, s', l) && s'.threads[l].pc == Waiting
    ensures Acted(s'.threads[l]) && AllAsked(s'.threads[l])
  {
    hide Leads, Inv, Tracked, AllAsked, ThreadOk, NodeOk;
    var t, f := s.threads[l], s.threads[Opposite(l)];
    ConfigOf(cfg, s);
    InvLinked(cfg, s);
    InBounds(cfg, s, l);
    if !t.accepting || AsksAny(t.out) || AsksAny(f.out) {
      AskedOf(t, f);
      s' := s;
    } else {
      var order := MayTimeOut(cfg, s.nodes[l.self], t, f.out);
      s' := Go(cfg, timeouts, s0, s, l, Timeout(order));
      hide Requests, TimeoutSends, TimeOut, IsOrder;
      TimeOutSame(s.nodes[l.self], t, order);
      TimeoutSendsOnly(s.nodes[l.self], t, order);
      AsksInOrder(s'.threads[l], order, t.out);
    }
  }

  /** Everything asked for has been sent, and everything sent has been taken: nothing is outstanding. */
  lemma NothingLeft(t0: Thread, f: Thread, t: Thread)
    requires AllAsked(t0) && Replied(f, t0) && f.pc == Waiting && f.taken == |t0.out|
    requires Absorbed(t, f) && t.pc == Waiting && t.taken == |f.out| && t.reqs <= t0.reqs
    ensures t.reqs == {}
  {
    forall p | p in t0.reqs ensures PieceIn(f.out, p) {
      assert Request(p) in t0.out;
      var k :| 0 <= k < |t0.out| && t0.out[k] == Request(p);
    }
    forall p | PieceIn(f.out, p) ensures p !in t.reqs {
      var m :| m in f.out && m.Piece? && m.pcno == p;
      var j :| 0 <= j < |f.out| && f.out[j] == m;
    }
  }

  lemma TrackedAt(cfg: Config, timeouts: bool, s0: System, s: System, l: Link)
    requires At(cfg, timeouts, s0, s) && l in s.threads
    ensures Opposite(l) in s.threads && Replied(s.threads[l], s.threads[Opposite(l)])
    ensures Absorbed(s.threads[l], s.threads[Opposite(l)])
  {
    hide Inv, Leads, Asked, OnlyServed, Replied, Absorbed;
    InvLinked(cfg, s);
    assert Opposite(l) in s.threads;
  }

  /** One connection settled; no other thread has moved. */
  lemma SettleOne(cfg: Config, timeouts: bool, s0: System, s: System, l: Link) returns (s': System)
    requires At(cfg, timeouts, s0, s) && {l, Opposite(l)} <= s.threads.Keys
    requires Live(s.threads[l]) && Live(s.threads[Opposite(l)])
    requires CanSettle(s.threads[l], s.threads[Opposite(l)], timeouts)
    ensures At(cfg, timeouts, s0, s') && OnlyBetween(s, s', l) && l in s'.threads
    ensures Acted(s'.threads[l]) && s'.threads[l].reqs == {}
  {
    hide At, Acted, Replied, Absorbed, AllAsked;
    var o := Opposite(l);
    assert Opposite(o) == l;
    if Acted(s.threads[l]) && s.threads[l].reqs == {} {
      s' := s;
    } else {
      var s1 := Exchange(cfg, timeouts, s0, s, l);
      AskMonotone(s.threads[l].out, s1.threads[l].out);
      AskMonotone(s.threads[o].out, s1.threads[o].out);
      hide AsksAny;
      NotOwnOpposite(cfg, timeouts, s0, s1, l);
      var s2 := Ask(cfg, timeouts, s0, s1, l);
      TakenAt(cfg, timeouts, s0, s2, o);
      var s3 := Drain(cfg, timeouts, s0, s2, o);
      TakenAt(cfg, timeouts, s0, s3, l);
      s' := Drain(cfg, timeouts, s0, s3, l);
      TrackedAt(cfg, timeouts, s0, s3, o);
      TrackedAt(cfg, timeouts, s0, s', l);
      NothingLeft(s2.threads[l], s'.threads[o], s'.threads[l]);
    }
  }

  lemma AskMonotone(a: seq<Message>, b: seq<Message>)
    requires a <= b
    ensures AsksAny(a) ==> AsksAny(b)
  {
  }

  lemma TakenAt(cfg: Config, timeouts: bool, s0: System, s: System, l: Link)
    requires At(cfg, timeouts, s0, s) && l in s.threads
    ensures Opposite(l) in s.threads && l.self in s.nodes
    ensures s.threads[l].taken <= |s.threads[Opposite(l)].out|
  {
    hide Leads;
    InBounds(cfg, s, l);
  }

  // ----- settling a node -----

  /** Both ends of the connection are in their loops, and its end at the node can get all it has outstanding. */
  ghost predicate Able(s: System, l: Link, timeouts: bool) {
    && {l, Opposite(l)} <= s.threads.Keys
    && Live(s.threads[l]) && Live(s.threads[Opposite(l)])
    && CanSettle(s.threads[l], s.threads[Opposite(l)], timeouts)
  }

  predicate Done(t: Thread) {
    Acted(t) && t.reqs == {}
  }

  /** The connections of node `i` still to settle, one after the other. */
  lemma {:induction false} SettleAll(cfg: Config, timeouts: bool, s0: System, s: System, i: nat, rest: set<Link>)
    returns (s': System)
    requires At(cfg, timeouts, s0, s)
    requires forall l :: l in rest ==> l.self == i && Able(s, l, timeouts)
    requires forall l :: l in s.threads && l.self == i && l !in rest ==> Done(s.threads[l])
    ensures At(cfg, timeouts, s0, s') && Settled(s', i)
    decreases rest
  {
    hide At, CanSettle, Acted;
    if rest == {} {
      s' := s;
    } else {
      var l :| l in rest;
      NotOwnOpposite(cfg, timeouts, s0, s, l);
      var s1 := SettleOne(cfg, timeouts, s0, s, l);
      forall k | k in rest - {l} ensures Able(s1, k, timeouts) {
        OtherLink(i, l, k);
        assert Able(s, k, timeouts);
      }
      forall k | k in s1.threads && k.self == i && k !in rest - {l} ensures Done(s1.threads[k]) {
        if k != l {
          OtherLink(i, l, k);
        }
      }
      s' := SettleAll(cfg, timeouts, s0, s1, i, rest - {l});
    }
  }

  /** Another connection of the same node has neither end in common. */
  lemma OtherLink(i: nat, l: Link, k: Link)
    requires l.self == k.self == i && k != l && Opposite(l) != l
    ensures k != Opposite(l) && Opposite(k) != l && Opposite(k) != Opposite(l)
  {
    assert l == Link(l.self, l.peer) && k == Link(k.self, k.peer);
  }

  /** From any reachable state a node can settle if each of its connections can. */
  lemma CanSettleNode(cfg: Config, timeouts: bool, s: System, i: nat) returns (s': System)
    requires Reachable(cfg, s) && forall l :: l in s.threads && l.self == i ==> Able(s, l, timeouts)
    ensures Leads(cfg, timeouts, s, s') && Settled(s', i)
  {
    hide Accounted, Able;
    ReachableAccounted(cfg, s);
    LeadsNowhere(cfg, timeouts, s);
    s' := SettleAll(cfg, timeouts, s, s, i, set l | l in s.threads && l.self == i);
  }

  // ----- when a connection cannot be settled -----

  /**
   An acceptor that has pieces outstanding and has not asked for them, opposite an initiator that wants nothing, with
   no timeout left; or one that was so and has left its loop.
   */
  ghost predicate Starved(t: Thread, f: Thread, timeouts: bool) {
    && t.accepting && Acted(t) && Acted(f) && f.reqs == {} && !AsksAny(f.out)
    && (t.pc == Closed || (t.pc == Waiting && !AsksAny(t.out) && (timeouts ==> t.ntimeouts == 4)))
  }

  lemma NoOrder(order: seq<nat>, keys: set<nat>)
    requires IsOrder(order, keys) && keys == {}
    ensures Requests(order) == []
  {
    NoKeysNoOrder(order, keys);
  }

  /** A thread with nothing outstanding, once it has acted, asks for nothing. */
  lemma AsksNothing(cfg: Config, me: nat, n: Node, t: Thread, f: Thread, np: Node, e: Event)
    requires 0 < cfg.maxsz && Here(cfg, n, t, f, np) && Enabled(cfg, n, t, f.out, e) && Acted(t) && t.reqs == {}
    ensures AsksAny(Local(cfg, me, n, t, f.out, e).1.out) ==> AsksAny(t.out)
  {
    hide Here, IsOrder, Printed, ReadInto, Mapped, Put, Get, Served, View, Strncpy, MarkBit, Act, Handle, TimeOut;
    match e
    case Receive(order, piece) => HandleAsksNothing(cfg, me, n, t, f, np, order, piece);
    case Serve(order, loaded) => NoOrder(order, t.reqs);
    case Timeout(order) =>
      NoOrder(order, t.reqs);
      TimeOutSame(n, t, order);
      HavesOfField(t.peerField, n.store.index.cmap, 0, 8 * t.peerLen);
    case _ =>
  }

  lemma HandleAsksNothing(cfg: Config, me: nat, n: Node, t: Thread, f: Thread, np: Node, order: seq<nat>, piece: Bytes)
    requires Here(cfg, n, t, f, np) && t.pc == Waiting && t.taken < |f.out| && t.reqs == {}
    ensures AsksAny(Handle(cfg, me, n, t, f.out[t.taken], order, piece).out) ==> AsksAny(t.out)
  {
    hide Here, Handle, Dispatch;
    HereSays(cfg, n, t, f, np);
    var m, t0 := f.out[t.taken], t.(taken := t.taken + 1);
    assert m in f.out;
    StatusSilent(cfg, me, n, t, m, order, piece);
    if m.Request? {
      DispatchRequest(cfg, me, n, t0, m.pcno, order, piece);
    } else if m.Piece? {
      DispatchPiece(cfg, me, n, t0, m, order, piece);
    } else {
      var ms := DispatchOther(cfg, me, n, t0, m, order, piece);
      assert AsksAny(t.out + ms) ==> AsksAny(t.out);
    }
  }

  /** The starved end of a connection: whatever step it takes, it stays starved, with the same pieces outstanding. */
  lemma StarvedMoves(cfg: Config, me: nat, n: Node, t: Thread, f: Thread, np: Node, e: Event, timeouts: bool)
    requires 0 < cfg.maxsz && Here(cfg, n, t, f, np) && Enabled(cfg, n, t, f.out, e) && (e.Timeout? ==> timeouts)
    requires Tracked(f, t) && Starved(t, f, timeouts)
    ensures var t' := Local(cfg, me, n, t, f.out, e).1;
      t'.reqs == t.reqs && (Starved(t', f, timeouts) || t'.pc == Failed)
  {
    hide Here, IsOrder, Printed, Put, Get, Handle, TimeOut, MarkBit, Act, Replied, Absorbed, Asked, Served;
    HereSays(cfg, n, t, f, np);
    ActedRegistered(cfg, n, t, f, np);
    match e
    case Receive(order, piece) => StarvedReceives(cfg, me, n, t, f, np, order, piece, timeouts);
    case Timeout(order) => TimeOutSame(n, t, order);
    case _ =>
  }

  lemma StarvedReceives(cfg: Config, me: nat, n: Node, t: Thread, f: Thread, np: Node, order: seq<nat>, piece: Bytes,
    timeouts: bool)
    requires Here(cfg, n, t, f, np) && t.pc == Waiting && t.taken < |f.out|
    requires OnlyServed(f, t) && Starved(t, f, timeouts)
    ensures var t' := Handle(cfg, me, n, t, f.out[t.taken], order, piece);
      t'.reqs == t.reqs && (Starved(t', f, timeouts) || t'.pc == Failed)
  {
    hide Here, Handle, Dispatch;
    HereSays(cfg, n, t, f, np);
    var m, t0 := f.out[t.taken], t.(taken := t.taken + 1);
    assert m in f.out;
    assert m.Piece? ==> PieceIn(f.out, m.pcno);
    assert m.Request? ==> AsksAny(f.out);
    StatusSilent(cfg, me, n, t, m, order, piece);
    var ms := DispatchOther(cfg, me, n, t0, m, order, piece);
    assert AsksAny(t.out + ms) ==> AsksAny(t.out);
  }

  /** The state of a connection whose accepting end `l` is starved. */
  ghost predicate StarvedAt(s: System, l: Link, timeouts: bool) {
    {l, Opposite(l)} <= s.threads.Keys && Starved(s.threads[l], s.threads[Opposite(l)], timeouts)
  }

  lemma StarvedStep(cfg: Config, timeouts: bool, s: System, s': System, l: Link, k: Link, e: Event)
    requires Accounted(cfg, s) && StarvedAt(s, l, timeouts)
    requires StepOf(cfg, s, s', k, e) && (e.Timeout? ==> timeouts)
    ensures Accounted(cfg, s') && StarvedAt(s', l, timeouts) && s'.threads[l].reqs == s.threads[l].reqs
  {
    hide Inv, Here, Enabled, Local, Tracked, ThreadOk, Starved, Acted;
    StepKeepsAccount(cfg, s, s', k, e);
    InvLinked(cfg, s);
    InBounds(cfg, s, l);
    var o := Opposite(l);
    assert Opposite(o) == l;
    if k == l {
      HereAt(cfg, s, l);
      TrackedOpposite(cfg, s, l);
      StarvedMoves(cfg, l.self, s.nodes[l.self], s.threads[l], s.threads[o], s.nodes[l.peer], e, timeouts);
    } else if k == o {
      InBounds(cfg, s, o);
      HereAt(cfg, s, o);
      StarverMoves(cfg, o.self, s.nodes[o.self], s.threads[o], s.threads[l], s.nodes[o.peer], e, timeouts);
    }
  }

  /** The other end: it never comes to want or ask for anything. */
  lemma StarverMoves(cfg: Config, me: nat, n: Node, f: Thread, t: Thread, np: Node, e: Event, timeouts: bool)
    requires 0 < cfg.maxsz && Here(cfg, n, f, t, np) && Enabled(cfg, n, f, t.out, e) && Starved(t, f, timeouts)
    ensures Starved(t, Local(cfg, me, n, f, t.out, e).1, timeouts)
  {
    hide Here, Enabled, Local, AsksAny, Acted;
    LocalShrinks(cfg, me, n, f, t.out, e);
    AsksNothing(cfg, me, n, f, t, np, e);
  }

  /** A thread that has acted has a neighbour, so it does not crash when it leaves its loop. */
  lemma ActedRegistered(cfg: Config, n: Node, t: Thread, f: Thread, np: Node)
    requires Here(cfg, n, t, f, np) && t.fieldRead
    ensures t.registered
  {
    hide Claims, Log, Busy, Outcome, NodeOk, ValidConfig;
    RegisteredHasSent(t, f);
  }

  lemma {:induction false} StarvedRun(cfg: Config, timeouts: bool, run: seq<System>, at: nat, l: Link)
    requires at < |run| && forall i :: 0 <= i < |run| - 1 ==> StepIn(cfg, timeouts, run[i], run[i + 1])
    requires Accounted(cfg, run[0]) && StarvedAt(run[0], l, timeouts)
    ensures Accounted(cfg, run[at]) && StarvedAt(run[at], l, timeouts)
    ensures run[at].threads[l].reqs == run[0].threads[l].reqs
  {
    hide Accounted, StepOf, Starved;
    if at > 0 {
      StarvedRun(cfg, timeouts, run, at - 1, l);
      assert StepIn(cfg, timeouts, run[at - 1], run[at - 1 + 1]);
      var k, e :| StepOf(cfg, run[at - 1], run[at], k, e) && (e.Timeout? ==> timeouts);
      StarvedStep(cfg, timeouts, run[at - 1], run[at], l, k, e);
    }
  }

  /** Once starved a connection stays so in every continuation, with the same pieces outstanding. */
  lemma StarvedForever(cfg: Config, timeouts: bool, s: System, s': System, l: Link)
    requires Reachable(cfg, s) && StarvedAt(s, l, timeouts) && Leads(cfg, timeouts, s, s')
    ensures StarvedAt(s', l, timeouts) && s'.threads[l].reqs == s.threads[l].reqs
  {
    hide Accounted, Starved, StepIn;
    ReachableAccounted(cfg, s);
    var run: seq<System> :| run != [] && run[0] == s && run[|run| - 1] == s'
      && forall i :: 0 <= i < |run| - 1 ==> StepIn(cfg, timeouts, run[i], run[i + 1]);
    StarvedRun(cfg, timeouts, run, |run| - 1, l);
  }

  /** Both ends of a connection are in their loops and have acted on each other's fields. */
  ghost predicate Underway(s: System, l: Link) {
    && {l, Opposite(l)} <= s.threads.Keys
    && Live(s.threads[l]) && Live(s.threads[Opposite(l)])
    && Acted(s.threads[l]) && Acted(s.threads[Opposite(l)])
  }

  /** A connection that is under way and cannot be settled is starved. */
  lemma UnableStarved(cfg: Config, timeouts: bool, s: System, l: Link)
    requires Accounted(cfg, s) && Underway(s, l)
    requires !CanSettle(s.threads[l], s.threads[Opposite(l)], timeouts)
    ensures StarvedAt(s, l, timeouts) && s.threads[l].reqs != {}
  {
    hide Inv, Replied, Absorbed;
    InBounds(cfg, s, l);
    TrackedOpposite(cfg, s, l);
    InvLinked(cfg, s);
    var t, f := s.threads[l], s.threads[Opposite(l)];
    assert Tracked(t, f) && Tracked(f, t);
    AcceptorStarted(cfg, s, l);
    if f.reqs != {} && AllAsked(f) {
      AsksSome(f);
    }
  }

  lemma AsksSome(t: Thread)
    requires AllAsked(t) && t.reqs != {}
    ensures AsksAny(t.out)
  {
    var p :| p in t.reqs;
  }

  lemma AcceptorStarted(cfg: Config, s: System, l: Link)
    requires Accounted(cfg, s) && l in s.threads && s.threads[l].accepting
    ensures s.threads[l].pc != Starting
  {
    hide AllTracked, Claims, Log, Outcome, NodeOk, Busy;
    ThreadAt(cfg, s, l);
  }

  /** An accepting end with pieces outstanding that has not asked for any, was not asked, and has no timeout left. */
  ghost predicate Starving(s: System, l: Link, timeouts: bool)
    requires {l, Opposite(l)} <= s.threads.Keys
  {
    var t := s.threads[l];
    && t.accepting && t.reqs != {} && !AsksAny(t.out) && !AsksAny(s.threads[Opposite(l)].out)
    && (timeouts ==> t.ntimeouts >= 4)
  }

  /**
   From a reachable state in which a node's connections are under way, some continuation settles the node exactly when
   none of them is starving at its end.
   */
  lemma SettlesIff(cfg: Config, timeouts: bool, s: System, i: nat)
    requires Reachable(cfg, s) && forall l :: l in s.threads && l.self == i ==> Underway(s, l)
    ensures (exists s' :: Leads(cfg, timeouts, s, s') && Settled(s', i))
       <==> !exists l :: l in s.threads && l.self == i && Underway(s, l) && Starving(s, l, timeouts)
  {
    hide Accounted, AsksAny, Starved, Leads;
    ReachableAccounted(cfg, s);
    if l :| l in s.threads && l.self == i && !CanSettle(s.threads[l], s.threads[Opposite(l)], timeouts) {
      UnableStarved(cfg, timeouts, s, l);
      forall s' | Leads(cfg, timeouts, s, s') ensures !Settled(s', i) {
        StarvedForever(cfg, timeouts, s, s', l);
      }
    } else {
      var s' := CanSettleNode(cfg, timeouts, s, i);
    }
  }
}
