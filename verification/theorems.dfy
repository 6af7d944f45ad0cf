/** What holds of every reachable state and over every run. */
module Theorems {
  import opened CStrings
  import opened CacheModel
  import Lru
  import opened Protocol
  import opened Invariants
  import opened Steps

  lemma ThreadAt(cfg: Config, s: System, l: Link)
    requires Inv(cfg, s) && l in s.threads
    ensures Opposite(l) in s.threads && l.self in s.nodes && l.peer in s.nodes
    ensures ThreadOk(cfg, s.threads[l], s.threads[Opposite(l)], s.nodes[l.self], s.nodes[l.peer])
  {
    hide ThreadOk, NodeOk;
  }

  /** What a thread in the middle of adding a piece has earmarked. */
  lemma AddingEarmarked(cfg: Config, t: Thread, f: Thread, n: Node, np: Node)
    requires ThreadOk(cfg, t, f, n, np)
    ensures t.pc.Putting? ==> t.pc.p in t.granted && t.pc.p !in n.have
    ensures t.pc.Flipping? ==> t.pc.p in t.granted && t.pc.p !in n.have
  {
    hide Session, Log, Good;
    assert Earmarks(t, n, np);
  }

  /** No two threads of a node are adding the same piece. */
  lemma OneAdder(cfg: Config, s: System, l: Link, k: Link)
    requires Inv(cfg, s) && l in s.threads && k in s.threads && l.self == k.self && s.threads[l].pc.Putting?
    ensures s.threads[k].pc != Flipping(s.threads[l].pc.p)
  {
    hide ThreadOk, NodeOk, AllThreadsOk, Owned, Acquired;
    ThreadAt(cfg, s, l);
    ThreadAt(cfg, s, k);
    AddingEarmarked(cfg, s.threads[l], s.threads[Opposite(l)], s.nodes[l.self], s.nodes[l.peer]);
    AddingEarmarked(cfg, s.threads[k], s.threads[Opposite(k)], s.nodes[k.self], s.nodes[k.peer]);
  }

  /** A thread about to write a piece finds it uncached: nobody else has earmarked it, and its bit is not set. */
  lemma PutMisses(cfg: Config, s: System, l: Link)
    requires Inv(cfg, s) && l in s.threads && s.threads[l].pc.Putting?
    ensures l.self in s.nodes && Pos(s.threads[l].pc.p, cfg.pcsz) !in s.nodes[l.self].store.index.cmap
  {
    hide ThreadOk, NodeOk, AllThreadsOk, Owned, Acquired, Exclusive;
    ThreadAt(cfg, s, l);
    AddingEarmarked(cfg, s.threads[l], s.threads[Opposite(l)], s.nodes[l.self], s.nodes[l.peer]);
    forall k | k in s.threads && k.self == l.self ensures s.threads[k].pc != Flipping(s.threads[l].pc.p) {
      OneAdder(cfg, s, l, k);
    }
  }

  lemma LocalOk(cfg: Config, s: System, l: Link, e: Event)
    requires Inv(cfg, s) && l in s.threads && Opposite(l) in s.threads && l.self in s.nodes && l.peer in s.nodes
    requires 0 < cfg.maxsz && Enabled(cfg, s.nodes[l.self], s.threads[l], s.threads[Opposite(l)].out, e)
    ensures var n, t, f, np := s.nodes[l.self], s.threads[l], s.threads[Opposite(l)], s.nodes[l.peer];
      var (n', t') := Local(cfg, l.self, n, t, f.out, e); StepOk(cfg, n, t, n', t', f, np)
  {
    hide Inv, Here, StepOk, Local;
    HereAt(cfg, s, l);
    if e.Write? {
      PutMisses(cfg, s, l);
    }
    var n, t, f, np := s.nodes[l.self], s.threads[l], s.threads[Opposite(l)], s.nodes[l.peer];
    match e
    case Begin => BeginOk(cfg, l.self, n, t, f, np);
    case Receive(order, piece) => ReceiveOk(cfg, l.self, n, t, f, np, order, piece);
    case Diff => DiffOk(cfg, l.self, n, t, f, np);
    case Mark => MarkOk(cfg, l.self, n, t, f, np);
    case Decide(order) => DecideOk(cfg, l.self, n, t, f, np, order);
    case Serve(order, loaded) => ServeOk(cfg, l.self, n, t, f, np, order, loaded);
    case Write(copy) => WriteOk(cfg, l.self, n, t, f, np, copy);
    case Publish => PublishOk(cfg, l.self, n, t, f, np);
    case Timeout(order) => TimeoutOk(cfg, l.self, n, t, f, np, order);
    case Hangup => HangupOk(cfg, l.self, n, t, f, np);
    case Unchoke => UnchokeOk(cfg, n, t, f, np);
  }

  lemma HereAt(cfg: Config, s: System, l: Link)
    requires Inv(cfg, s) && l in s.threads && Opposite(l) in s.threads && l.self in s.nodes && l.peer in s.nodes
    ensures Here(cfg, s.nodes[l.self], s.threads[l], s.threads[Opposite(l)], s.nodes[l.peer])
  {
    hide ThreadOk, NodeOk;
    var o := Opposite(l);
    assert Opposite(o) == l;
    assert ThreadOk(cfg, s.threads[o], s.threads[l], s.nodes[o.self], s.nodes[o.peer]);
  }

  lemma StepOfOk(cfg: Config, s: System, s': System, l: Link, e: Event)
    requires Inv(cfg, s) && StepOf(cfg, s, s', l, e)
    ensures OnlyAt(s, s', l) && l in s.threads && Opposite(l) in s.threads && l.self in s.nodes && l.peer in s.nodes
    ensures StepOk(cfg, s.nodes[l.self], s.threads[l], s'.nodes[l.self], s'.threads[l],
                   s.threads[Opposite(l)], s.nodes[l.peer])
  {
    hide Inv, StepOk, Local, Enabled;
    ThreadAt(cfg, s, l);
    LocalOk(cfg, s, l, e);
  }

  /** Every step of every thread of every node keeps the invariant. */
  lemma StepKeepsInv(cfg: Config, s: System, s': System)
    requires Inv(cfg, s) && Step(cfg, s, s')
    ensures Inv(cfg, s')
  {
    hide Inv, StepOk, StepOf;
    var l, e :| StepOf(cfg, s, s', l, e);
    StepOfOk(cfg, s, s', l, e);
    StepOkKeepsInv(cfg, s, s', l);
  }

  lemma {:induction false} RunInv(cfg: Config, run: seq<System>, i: nat)
    requires Behaviour(cfg, run) && i < |run|
    ensures Inv(cfg, run[i])
  {
    hide Inv, Init, Step;
    if i == 0 {
      InitInv(cfg, run[0]);
    } else {
      RunInv(cfg, run, i - 1);
      StepKeepsInv(cfg, run[i - 1], run[i - 1 + 1]);
    }
  }

  lemma ReachableInv(cfg: Config, s: System)
    requires Reachable(cfg, s)
    ensures Inv(cfg, s)
  {
    hide Inv;
    var run :| Behaviour(cfg, run) && s == run[|run| - 1];
    RunInv(cfg, run, |run| - 1);
  }

  /**
   Put never hits: in every reachable state a thread about to put a piece finds it uncached, so the new buffer is
   never dropped for a stale one.
   */
  lemma PutNeverHits(cfg: Config, s: System, l: Link)
    requires Reachable(cfg, s) && l in s.threads && s.threads[l].pc.Putting?
    ensures l.self in s.nodes && Pos(s.threads[l].pc.p, cfg.pcsz) !in s.nodes[l.self].store.index.cmap
  {
    hide Inv;
    ReachableInv(cfg, s);
    PutMisses(cfg, s, l);
  }

  // ----- content integrity -----

  /**
   In every reachable state, at every node: each piece whose bit is set is in the file with the right string,
   each cached buffer holds the right string of some piece, and so does each Piece message ever sent.
   */
  lemma ContentIntegrity(cfg: Config, s: System, i: nat)
    requires Reachable(cfg, s) && i in s.nodes
    ensures forall p :: p in s.nodes[i].have ==> Good(cfg, s.nodes[i].store, p)
    ensures forall a :: a in s.nodes[i].store.index.cvec ==>
      exists p: nat :: a.pos == Pos(p, cfg.pcsz) && p in cfg.views && View(a.buf) == cfg.views[p]
    ensures forall l, m :: l in s.threads && l.self == i && m in s.threads[l].out && m.Piece? ==>
      m.pcno in cfg.views && m.payload == cfg.views[m.pcno]
  {
    hide Coherent, Good, ThreadOk, AllThreadsOk, Owned, Acquired, Exclusive, CachedPublished;
    ReachableInv(cfg, s);
    var n := s.nodes[i];
    assert NodeOk(cfg, n);
    forall a | a in n.store.index.cvec
      ensures exists p: nat :: a.pos == Pos(p, cfg.pcsz) && p in cfg.views && View(a.buf) == cfg.views[p]
    {
      CachedGood(cfg, s, i, a);
    }
    forall l, m | l in s.threads && l.self == i && m in s.threads[l].out && m.Piece?
      ensures m.pcno in cfg.views && m.payload == cfg.views[m.pcno]
    {
      ThreadAt(cfg, s, l);
      SentSound(cfg, s.threads[l], s.threads[Opposite(l)], n, s.nodes[l.peer], m);
    }
  }

  lemma SentSound(cfg: Config, t: Thread, f: Thread, n: Node, np: Node, m: Message)
    requires ThreadOk(cfg, t, f, n, np) && m in t.out
    ensures Sound(cfg, m, t, f, n)
  {
    hide Session, Claims, Busy, Sound;
  }

  lemma CachedGood(cfg: Config, s: System, i: nat, a: Access)
    requires Inv(cfg, s) && i in s.nodes && a in s.nodes[i].store.index.cvec
    ensures exists p: nat :: a.pos == Pos(p, cfg.pcsz) && p in cfg.views && View(a.buf) == cfg.views[p]
  {
    hide ThreadOk, AllThreadsOk, Owned, Acquired, Exclusive;
    var n := s.nodes[i];
    assert NodeOk(cfg, n) && Coherent(n.store, cfg.pcsz, cfg.maxsz) && Agrees(a, n.store.file, cfg.pcsz);
    var p: nat :| a.pos == Pos(p, cfg.pcsz);
    CachedMapped(n.store.index, a);
    CachedIsGood(cfg, s, i, p);
  }

  lemma CachedMapped(c: Index, a: Access)
    requires Exact(c) && a in c.cvec
    ensures a.pos in c.cmap
  {
  }

  lemma CachedIsGood(cfg: Config, s: System, i: nat, p: nat)
    requires Inv(cfg, s) && i in s.nodes && Pos(p, cfg.pcsz) in s.nodes[i].store.index.cmap
    ensures Good(cfg, s.nodes[i].store, p)
  {
    hide Coherent, Good, AllThreadsOk, Owned, Acquired, Exclusive;
    if p !in s.nodes[i].have {
      assert FlippingAt(s, i, p);
      var l :| l in s.threads && l.self == i && s.threads[l].pc == Flipping(p);
      ThreadAt(cfg, s, l);
    }
  }

  // ----- requests -----

  /**
   Whatever a thread has requested or has outstanding, its peer holds; whatever pieces a bit field advertised, its
   sender holds. So no thread ever fails: no piece fetch, no NULL neighbour in a message case, no misaligned diff.
   */
  lemma RequestsServiceable(cfg: Config, s: System, l: Link)
    requires Reachable(cfg, s) && l in s.threads
    ensures l.self in s.nodes && l.peer in s.nodes
    ensures forall p :: p in s.threads[l].reqs || Request(p) in s.threads[l].out ==> p in s.nodes[l.peer].have
    ensures forall len, pieces :: BitField(len, pieces) in s.threads[l].out ==>
      len == cfg.len && pieces <= s.nodes[l.self].have
    ensures s.threads[l].pc != Failed
  {
    hide Inv, Session, Claims, Good;
    ReachableInv(cfg, s);
    ThreadAt(cfg, s, l);
    var t, f, n, np := s.threads[l], s.threads[Opposite(l)], s.nodes[l.self], s.nodes[l.peer];
    WantsWhatPeerHas(t, n, np);
    forall p | p in t.reqs || Request(p) in t.out ensures Wants(t, p) {
      if Request(p) in t.out {
        SentSound(cfg, t, f, n, np, Request(p));
      }
    }
    forall len, pieces | BitField(len, pieces) in t.out ensures len == cfg.len && pieces <= n.have {
      SentSound(cfg, t, f, n, np, BitField(len, pieces));
    }
  }

  /**
   On every connection each end's first message is its handshake, no other is, and at most one is a bit field;
   no neighbour is ever choked, and nobody is ever told it is or is not; a thread has a neighbour from the first
   message on, and one that has left the loop dereferenced a NULL one exactly when it had taken no message.
   */
  lemma SessionOrder(cfg: Config, s: System, l: Link)
    requires Reachable(cfg, s) && l in s.threads
    ensures var t := s.threads[l];
      && HandshakeFirst(t.out) && OneField(t.out)
      && !t.nbrChoked && Choke !in t.out && UnChoke !in t.out
      && (t.registered <==> 0 < t.taken)
      && (t.pc == Closed || t.pc == Crashed ==> (t.pc == Crashed <==> t.taken == 0))
  {
    hide Inv, Claims;
    ReachableInv(cfg, s);
    ThreadAt(cfg, s, l);
    var t, f, n, np := s.threads[l], s.threads[Opposite(l)], s.nodes[l.self], s.nodes[l.peer];
    if Choke in t.out {
      SentSound(cfg, t, f, n, np, Choke);
    }
    if UnChoke in t.out {
      SentSound(cfg, t, f, n, np, UnChoke);
    }
  }

  /** A message that introduces the node `me` or advertises `have` says just that. */
  predicate Current(cfg: Config, me: nat, have: set<nat>, m: Message) {
    (m.Handshake? ==> m == Handshake(me)) && (m.BitField? ==> m == BitField(cfg.len, have))
  }

  /**
   A bit field is up to date: whatever step writes one, it advertises just what the node holds at that step, and a
   handshake gives the node's own id. No other thread writes.
   */
  lemma AdvertisesCurrent(cfg: Config, s: System, s': System, l: Link, e: Event, k: Link)
    requires StepOf(cfg, s, s', l, e) && k in s.threads
    ensures k in s'.threads && s.threads[k].out <= s'.threads[k].out
    ensures forall i :: |s.threads[k].out| <= i < |s'.threads[k].out| ==>
      k == l && Current(cfg, l.self, s.nodes[l.self].have, s'.threads[k].out[i])
  {
    hide Local, Enabled, Current;
    if k == l {
      var ms := LocalWrites(cfg, l.self, s.nodes[l.self], s.threads[l], s.threads[Opposite(l)].out, e);
      assert forall i :: |s.threads[l].out| <= i < |s'.threads[l].out| ==>
        s'.threads[l].out[i] == ms[i - |s.threads[l].out|];
    }
  }

  lemma PlainCurrent(cfg: Config, me: nat, have: set<nat>, ms: seq<Message>)
    requires forall m :: m in ms ==> Plain(m)
    ensures forall m :: m in ms ==> Current(cfg, me, have, m)
  {
  }

  lemma LocalWrites(cfg: Config, me: nat, n: Node, t: Thread, inbox: seq<Message>, e: Event) returns (ms: seq<Message>)
    requires 0 < cfg.maxsz && Enabled(cfg, n, t, inbox, e)
    ensures Local(cfg, me, n, t, inbox, e).1.out == t.out + ms
    ensures forall m :: m in ms ==> Current(cfg, me, n.have, m)
  {
    hide Put, Get, Served, Strncpy, View, IsOrder, Printed, ReadInto, Requests, Handle, MarkBit, Act, TimeOut;
    match e
    case Begin => ms := [Handshake(me), BitField(cfg.len, n.have)];
    case Receive(order, piece) => ms := HandleWrites(cfg, me, n, t, inbox[t.taken], order, piece);
    case Decide(order) => ms := ActWrites(cfg, t, order, me, n.have);
    case Serve(order, loaded) => ms := ServeWrites(cfg, me, n, t, inbox, order, loaded);
    case Timeout(order) =>
      TimeoutSendsOnly(n, t, order);
      ms := TimeoutSends(n, t, order);
      PlainCurrent(cfg, me, n.have, ms);
      TimeOutWrites(n, t, order);
    case _ =>
      ms := [];
      OtherWrites(cfg, me, n, t, inbox, e);
  }

  lemma TimeOutWrites(n: Node, t: Thread, order: seq<nat>)
    ensures TimeOut(n, t, order).out == t.out + TimeoutSends(n, t, order)
  {
    hide TimeoutSends;
  }

  lemma ServeWrites(cfg: Config, me: nat, n: Node, t: Thread, inbox: seq<Message>, order: seq<nat>, loaded: Bytes)
    returns (ms: seq<Message>)
    requires 0 < cfg.maxsz && Enabled(cfg, n, t, inbox, Serve(order, loaded))
    ensures Local(cfg, me, n, t, inbox, Serve(order, loaded)).1.out == t.out + ms
    ensures forall m :: m in ms ==> Current(cfg, me, n.have, m)
  {
    hide Get, Served, Strncpy, View, IsOrder, ReadInto, Requests, Mapped;
    RequestsOnly(order);
    ms := [Piece(t.pc.p, View(Strncpy(Served(n.store, Pos(t.pc.p, cfg.pcsz), loaded))))]
      + if t.chokedNode then [] else Requests(order);
  }

  lemma OtherWrites(cfg: Config, me: nat, n: Node, t: Thread, inbox: seq<Message>, e: Event)
    requires 0 < cfg.maxsz && Enabled(cfg, n, t, inbox, e)
    requires e.Diff? || e.Mark? || e.Write? || e.Publish? || e.Hangup? || e.Unchoke?
    ensures Local(cfg, me, n, t, inbox, e).1.out == t.out + []
  {
    hide Put, Printed, MarkBit;
    if e.Mark? {
      MarkSilent(cfg, n, t);
    }
  }

  lemma ActWrites(cfg: Config, t: Thread, order: seq<nat>, me: nat, have: set<nat>) returns (ms: seq<Message>)
    ensures Act(cfg, t, order).out == t.out + ms
    ensures forall m :: m in ms ==> Current(cfg, me, have, m)
  {
    hide Requests, EarmarkResult;
    RequestsOnly(order);
    ms := if EarmarkResult(cfg, t)
      then [Interested] + if !t.accepting && !t.chokedNode then Requests(order) else [] else [NotInterested];
  }

  lemma HandleWrites(cfg: Config, me: nat, n: Node, t: Thread, m: Message, order: seq<nat>, piece: Bytes)
    returns (ms: seq<Message>)
    ensures Handle(cfg, me, n, t, m, order, piece).out == t.out + ms
    ensures forall x :: x in ms ==> Current(cfg, me, n.have, x)
  {
    hide Dispatch;
    var more := DispatchWrites(cfg, me, n, Send(t.(taken := t.taken + 1), ChokeStatus(t)), m, order, piece);
    ms := ChokeStatus(t) + more;
  }

  lemma DispatchWrites(cfg: Config, me: nat, n: Node, t: Thread, m: Message, order: seq<nat>, piece: Bytes)
    returns (ms: seq<Message>)
    ensures Dispatch(cfg, me, n, t, m, order, piece).out == t.out + ms
    ensures forall x :: x in ms ==> Current(cfg, me, n.have, x) && !x.Choke?
  {
    hide Requests;
    if m.BitField? {
      ms := if !t.fieldRead && cfg.len <= m.len && t.accepting then [BitField(cfg.len, n.have)] else [];
      assert t.out + [] == t.out;
    } else if m.Handshake? {
      ms := if t.accepting then [Handshake(me)] else [];
    } else {
      ms := DispatchWritesPlain(cfg, me, n, t, m, order, piece);
      PlainCurrent(cfg, me, n.have, ms);
    }
  }

  lemma DispatchWritesPlain(cfg: Config, me: nat, n: Node, t: Thread, m: Message, order: seq<nat>, piece: Bytes)
    returns (ms: seq<Message>)
    requires Plain(m)
    ensures Dispatch(cfg, me, n, t, m, order, piece).out == t.out + ms
    ensures forall x :: x in ms ==> Plain(x) && !x.Choke?
  {
    hide Requests;
    if m.UnChoke? {
      RequestsOnly(order);
      ms := Requests(order);
    } else if m.Have? {
      ms := if m.pcno in t.reqs then [Interested, Request(m.pcno)] else [];
      assert t.out + [] == t.out;
    } else {
      ms := [];
      DispatchSilent(cfg, me, n, t, m, order, piece);
    }
  }

  /** Were a neighbour choked, the first thing sent for any message would say so; nothing else says it. */
  lemma ChokedIsTold(cfg: Config, me: nat, n: Node, t: Thread, m: Message, order: seq<nat>, piece: Bytes)
    ensures var t', told := Handle(cfg, me, n, t, m, order, piece), t.registered && t.nbrChoked;
      && t.out + (if told then [Choke] else []) <= t'.out
      && (|t.out| < |t'.out| && t'.out[|t.out|] == Choke <==> told)
  {
    hide Dispatch;
    var t0 := Send(t.(taken := t.taken + 1), ChokeStatus(t));
    var more := DispatchWrites(cfg, me, n, t0, m, order, piece);
    var t' := Handle(cfg, me, n, t, m, order, piece);
    assert t'.out == t.out + (ChokeStatus(t) + more);
    assert more != [] ==> more[0] in more;
  }

  lemma DispatchSilent(cfg: Config, me: nat, n: Node, t: Thread, m: Message, order: seq<nat>, piece: Bytes)
    requires Plain(m) && !m.UnChoke? && !m.Have?
    ensures Dispatch(cfg, me, n, t, m, order, piece).out == t.out + []
  {
    match m
    case Choke =>
    case Interested =>
    case NotInterested =>
    case Request(_) =>
    case Piece(_, _) =>
  }

  /**
   What a thread tells its peer at the end of earmark: NotInterested exactly when, as meant, it won nothing; as
   written, when it did not win the highest piece it wanted.
   */
  lemma TellsInterestIff(cfg: Config, s: System, s': System, l: Link, order: seq<nat>)
    requires Reachable(cfg, s) && StepOf(cfg, s, s', l, Decide(order))
    ensures var t, t' := s.threads[l], s'.threads[l];
      && |t.out| < |t'.out| && t'.out[|t.out|] in {Interested, NotInterested}
      && (t'.out[|t.out|] == Interested <==>
            if cfg.earmark.AnyWon? then t.granted != {} else HighestTaken(t.granted, t.wanted))
  {
    hide Inv, HighestTaken, Here, Requests;
    ReachableInv(cfg, s);
    ThreadAt(cfg, s, l);
    HereAt(cfg, s, l);
    DecideTells(cfg, s.nodes[l.self], s.threads[l], s.threads[Opposite(l)], s.nodes[l.peer], order);
  }

  lemma DecideTells(cfg: Config, n: Node, t: Thread, f: Thread, np: Node, order: seq<nat>)
    requires Here(cfg, n, t, f, np) && t.pc.Marking? && t.pc.next >= 8 * cfg.len
    ensures t.granted == t.diff && (t.last <==> HighestTaken(t.granted, t.wanted))
  {
    DecideGranted(cfg, n, t, np);
    DecideOutcome(cfg, n, t, np, order);
  }

  // ----- earmarks -----

  /** A piece is earmarked at a node exactly when exactly one of its threads has earmarked it. */
  lemma EarmarkedByExactlyOne(cfg: Config, s: System, i: nat, p: nat)
    requires Reachable(cfg, s) && i in s.nodes
    ensures p in s.nodes[i].mark <==>
      exists l :: l in s.threads && l.self == i && p in s.threads[l].granted
    ensures forall l, k ::
      (l in s.threads && k in s.threads && l.self == k.self == i
       && p in s.threads[l].granted && p in s.threads[k].granted) ==> l == k
  {
    hide Coherent, Good, ThreadOk, AllThreadsOk, Acquired, CachedPublished, NodeOk;
    ReachableInv(cfg, s);
    forall l | l in s.threads && l.self == i && p in s.threads[l].granted ensures p in s.nodes[i].mark {
      ThreadAt(cfg, s, l);
      EarmarksOf(cfg, s.threads[l], s.threads[Opposite(l)], s.nodes[l.self], s.nodes[l.peer]);
    }
  }

  lemma EarmarksOf(cfg: Config, t: Thread, f: Thread, n: Node, np: Node)
    requires ThreadOk(cfg, t, f, n, np)
    ensures Earmarks(t, n, np)
  {
    hide Session, Earmarks, Busy, Log;
  }

  /** Part-way through earmark's loop, a thread's earmarks are the bits it has passed that are left in `diff`. */
  lemma EarmarksMidLoop(cfg: Config, s: System, l: Link)
    requires Reachable(cfg, s) && l in s.threads && s.threads[l].pc.Marking?
    ensures var t := s.threads[l]; t.granted == set p | p in t.diff && p < t.pc.next
  {
    hide Inv, Session, Busy, Log;
    ReachableInv(cfg, s);
    ThreadAt(cfg, s, l);
    assert Choosing(s.threads[l], s.nodes[l.self]);
  }

  /**
   No piece is overlooked, at any time: once a thread has acted on its peer's field, each piece of it is held, or some
   thread of the node earmarked it and, past its own loop, has it outstanding or dropped it.
   */
  lemma NothingOverlooked(cfg: Config, s: System, l: Link, p: nat)
    requires Reachable(cfg, s) && l in s.threads && Acted(s.threads[l]) && p in s.threads[l].peerField
    ensures l.self in s.nodes && (p in s.nodes[l.self].have
      || exists k :: k in s.threads && k.self == l.self && p in s.threads[k].granted
           && (Acted(s.threads[k]) ==> p in s.threads[k].reqs || p in s.threads[k].dropped))
  {
    hide Coherent, Good, ThreadOk, AllThreadsOk, Acquired, CachedPublished, NodeOk, Exclusive;
    ReachableInv(cfg, s);
    ThreadAt(cfg, s, l);
    ActedThread(cfg, s.threads[l], s.threads[Opposite(l)], s.nodes[l.self], s.nodes[l.peer]);
    if p !in s.nodes[l.self].have {
      var k :| k in s.threads && k.self == l.self && p in s.threads[k].granted;
      ThreadAt(cfg, s, k);
      if Acted(s.threads[k]) {
        ActedThread(cfg, s.threads[k], s.threads[Opposite(k)], s.nodes[k.self], s.nodes[k.peer]);
      }
    }
  }

  lemma ActedThread(cfg: Config, t: Thread, f: Thread, n: Node, np: Node)
    requires ThreadOk(cfg, t, f, n, np) && Acted(t)
    ensures forall p :: p in t.peerField ==> p in n.have || p in n.mark
    ensures forall p :: p in t.granted ==> p in n.have || p in t.reqs || p in t.dropped
  {
    hide Session, Busy, Log;
    assert Earmarks(t, n, np) && Chosen(t, n);
  }

  /** A Have only ever names a piece its reader holds, so it never makes it ask for anything again. */
  lemma HavesNeverHelp(cfg: Config, s: System, l: Link, p: nat)
    requires Reachable(cfg, s) && l in s.threads && Opposite(l) in s.threads
    requires Have(p) in s.threads[Opposite(l)].out
    ensures l.self in s.nodes && p in s.nodes[l.self].have && p !in s.threads[l].reqs
  {
    hide Inv, Session, Busy, Outcome;
    ReachableInv(cfg, s);
    var o := Opposite(l);
    ThreadAt(cfg, s, l);
    ThreadAt(cfg, s, o);
    assert Opposite(o) == l;
    SentSound(cfg, s.threads[o], s.threads[l], s.nodes[o.self], s.nodes[o.peer], Have(p));
    assert Earmarks(s.threads[l], s.nodes[l.self], s.nodes[l.peer]);
  }

  /** Every thread of node `i` has read its peer's field and acted on it, and has nothing outstanding. */
  ghost predicate Settled(s: System, i: nat) {
    forall l :: l in s.threads && l.self == i ==> Acted(s.threads[l]) && s.threads[l].reqs == {}
  }

  /** `p` is a piece a bit field sent to node `i` says its sender has. */
  ghost predicate Advertised(s: System, i: nat, p: nat) {
    exists l, len, pieces :: l in s.threads && l.self == i && Opposite(l) in s.threads
      && BitField(len, pieces) in s.threads[Opposite(l)].out && p in pieces
  }

  ghost predicate Dropped(s: System, i: nat, p: nat) {
    exists l :: l in s.threads && l.self == i && p in s.threads[l].dropped
  }

  /**
   Completion: when a node has settled, an advertised piece is missing exactly when one of its threads earmarked it
   and then dropped it on earmark's return value.
   */
  lemma MissingIffDropped(cfg: Config, s: System, i: nat, p: nat)
    requires Reachable(cfg, s) && i in s.nodes && Settled(s, i)
    ensures Advertised(s, i, p) && p !in s.nodes[i].have <==> Dropped(s, i, p)
  {
    hide Inv, ThreadOk;
    ReachableInv(cfg, s);
    if Advertised(s, i, p) && p !in s.nodes[i].have {
      var l, len, pieces :| l in s.threads && l.self == i && Opposite(l) in s.threads
        && BitField(len, pieces) in s.threads[Opposite(l)].out && p in pieces;
      KnownField(cfg, s, l, len, pieces);
      MissingDropped(cfg, s, l, p);
    }
    if Dropped(s, i, p) {
      var l :| l in s.threads && l.self == i && p in s.threads[l].dropped;
      DroppedMissing(cfg, s, l, p);
    }
  }

  /** The one bit field a peer sends is the one its reader knows. */
  lemma KnownField(cfg: Config, s: System, l: Link, len: nat, pieces: set<nat>)
    requires Inv(cfg, s) && l in s.threads && Opposite(l) in s.threads && s.threads[l].fieldRead
    requires BitField(len, pieces) in s.threads[Opposite(l)].out
    ensures s.threads[l].peerField == pieces
  {
    hide Inv, Claims, Busy, Log;
    var o := Opposite(l);
    ThreadAt(cfg, s, l);
    ThreadAt(cfg, s, o);
  }

  lemma MissingDropped(cfg: Config, s: System, l: Link, p: nat)
    requires Inv(cfg, s) && l in s.threads && Settled(s, l.self)
    requires l.self in s.nodes && p in s.threads[l].peerField && p !in s.nodes[l.self].have
    ensures Dropped(s, l.self, p)
  {
    hide Coherent, Good, ThreadOk, AllThreadsOk, Acquired, CachedPublished, NodeOk, Exclusive;
    ThreadAt(cfg, s, l);
    ActedThread(cfg, s.threads[l], s.threads[Opposite(l)], s.nodes[l.self], s.nodes[l.peer]);
    var k :| k in s.threads && k.self == l.self && p in s.threads[k].granted;
    ThreadAt(cfg, s, k);
    ActedThread(cfg, s.threads[k], s.threads[Opposite(k)], s.nodes[k.self], s.nodes[k.peer]);
  }

  lemma DroppedMissing(cfg: Config, s: System, l: Link, p: nat)
    requires Inv(cfg, s) && l in s.threads && p in s.threads[l].dropped
    ensures l.self in s.nodes && p !in s.nodes[l.self].have && Advertised(s, l.self, p)
  {
    hide Inv, Busy, Log;
    ThreadAt(cfg, s, l);
    var t, f := s.threads[l], s.threads[Opposite(l)];
    assert Earmarks(t, s.nodes[l.self], s.nodes[l.peer]);
    assert p in t.granted && t.fieldRead && FieldFrom(t, f.out);
    var k :| 0 <= k < t.taken && k < |f.out| && f.out[k].BitField? && f.out[k].pieces == t.peerField;
    assert BitField(f.out[k].len, f.out[k].pieces) in f.out;
  }

  /**
   A settled node has everything advertised to it exactly when each of its threads earmarked nothing or the highest
   piece it wanted, under whatever interleaving with the others; with the earmark that is meant, always.
   */
  lemma CompleteIffHighestWon(cfg: Config, s: System, i: nat)
    requires Reachable(cfg, s) && i in s.nodes && Settled(s, i)
    ensures (forall p :: Advertised(s, i, p) ==> p in s.nodes[i].have)
       <==> cfg.earmark.AnyWon? || forall l :: l in s.threads && l.self == i ==>
              s.threads[l].granted == {} || HighestTaken(s.threads[l].granted, s.threads[l].wanted)
  {
    hide Advertised, HighestTaken, Inv, Outcome;
    ReachableInv(cfg, s);
    NothingDropped(cfg, s, i);
    forall l | l in s.threads && l.self == i
      ensures s.threads[l].dropped == {} <==> Fulfilled(cfg, s.threads[l])
    {
      ThreadAt(cfg, s, l);
      OutcomeOf(cfg, s.threads[l], s.threads[Opposite(l)], s.nodes[l.self], s.nodes[l.peer]);
    }
    assert (forall l :: l in s.threads && l.self == i ==> s.threads[l].dropped == {})
      <==> (forall l :: l in s.threads && l.self == i ==> Fulfilled(cfg, s.threads[l]));
  }

  /** The peers of node `i` offer no two of its threads the same piece, but for what it started with. */
  ghost predicate Uncontested(s: System, i: nat)
    requires i in s.nodes
  {
    forall l, k :: l in s.threads && k in s.threads && l.self == k.self == i && l != k ==>
      s.threads[l].peerField * s.threads[k].peerField <= s.nodes[i].initial
  }

  /**
   With the earmark as written too, a settled node whose peers offered it nothing twice has everything advertised to
   it, whatever the interleaving; a node with a single connection always is such a node.
   */
  lemma UncontestedComplete(cfg: Config, s: System, i: nat)
    requires Reachable(cfg, s) && i in s.nodes && Settled(s, i)
    requires Uncontested(s, i) || forall l, k :: l in s.threads && k in s.threads && l.self == k.self == i ==> l == k
    ensures forall p :: Advertised(s, i, p) ==> p in s.nodes[i].have
  {
    hide Advertised, HighestTaken, Inv, ThreadOk;
    ReachableInv(cfg, s);
    forall l | l in s.threads && l.self == i
      ensures s.threads[l].granted == {} || HighestTaken(s.threads[l].granted, s.threads[l].wanted)
    {
      ThreadAt(cfg, s, l);
      OutcomeOf(cfg, s.threads[l], s.threads[Opposite(l)], s.nodes[l.self], s.nodes[l.peer]);
      forall p | p in s.threads[l].wanted ensures p in s.threads[l].granted {
        UncontestedWon(cfg, s, l, p);
      }
      if s.threads[l].granted != {} {
        AllTaken(s.threads[l].granted, s.threads[l].wanted);
      }
    }
    CompleteIffHighestWon(cfg, s, i);
  }

  /** A wanted piece that no other thread of the node was offered is the thread's own. */
  lemma UncontestedWon(cfg: Config, s: System, l: Link, p: nat)
    requires Inv(cfg, s) && l in s.threads && Acted(s.threads[l]) && p in s.threads[l].wanted && l.self in s.nodes
    requires Uncontested(s, l.self)
    ensures p in s.threads[l].granted
  {
    hide ThreadOk, AllThreadsOk, Acquired, CachedPublished, Exclusive, NodeOk, Acted;
    WantedMarked(cfg, s, l, p);
    var k :| k in s.threads && k.self == l.self && p in s.threads[k].granted;
    ThreadAt(cfg, s, k);
    EarmarksOf(cfg, s.threads[k], s.threads[Opposite(k)], s.nodes[k.self], s.nodes[k.peer]);
    assert p in s.threads[l].peerField * s.threads[k].peerField;
  }

  lemma WantedMarked(cfg: Config, s: System, l: Link, p: nat)
    requires Inv(cfg, s) && l in s.threads && Acted(s.threads[l]) && p in s.threads[l].wanted && l.self in s.nodes
    ensures p in s.nodes[l.self].mark && p !in s.nodes[l.self].initial && p in s.threads[l].peerField
  {
    hide Coherent, Good, ThreadOk, AllThreadsOk, Acquired, CachedPublished, Exclusive, Owned;
    ThreadAt(cfg, s, l);
    assert NodeOk(cfg, s.nodes[l.self]);
    ActedThread(cfg, s.threads[l], s.threads[Opposite(l)], s.nodes[l.self], s.nodes[l.peer]);
    OutcomeOf(cfg, s.threads[l], s.threads[Opposite(l)], s.nodes[l.self], s.nodes[l.peer]);
  }

  lemma {:induction false} AllTaken(taken: set<nat>, wanted: set<nat>)
    requires taken == wanted != {}
    ensures HighestTaken(taken, wanted)
  {
    var p := Highest(wanted);
    assert p in taken;
  }

  lemma {:induction false} Highest(ps: set<nat>) returns (p: nat)
    requires ps != {}
    ensures p in ps && forall q :: q in ps ==> q <= p
    decreases ps
  {
    p :| p in ps;
    if ps != {p} {
      var rest := ps - {p};
      assert ps == rest + {p};
      var r := Highest(rest);
      p := if r > p then r else p;
    }
  }

  lemma OutcomeOf(cfg: Config, t: Thread, f: Thread, n: Node, np: Node)
    requires ThreadOk(cfg, t, f, n, np) && Acted(t)
    ensures t.dropped == {} <==> Fulfilled(cfg, t)
    ensures WantedOfField(t, n)
  {
    hide Session, Claims, Busy, Log, Fulfilled;
  }

  /** A settled node has everything advertised to it exactly when none of its threads dropped anything. */
  lemma NothingDropped(cfg: Config, s: System, i: nat)
    requires Reachable(cfg, s) && i in s.nodes && Settled(s, i)
    ensures (forall p :: Advertised(s, i, p) ==> p in s.nodes[i].have)
       <==> (forall l :: l in s.threads && l.self == i ==> s.threads[l].dropped == {})
  {
    hide Advertised;
    forall p ensures Advertised(s, i, p) && p !in s.nodes[i].have <==> Dropped(s, i, p) {
      MissingIffDropped(cfg, s, i, p);
    }
    if l :| l in s.threads && l.self == i && s.threads[l].dropped != {} {
      var p :| p in s.threads[l].dropped;
      assert Dropped(s, i, p);
    }
  }

  /** Some peer of node `i` held `p` at the start. */
  ghost predicate PeerStartedWith(s: System, i: nat, p: nat) {
    exists l :: l in s.threads && l.self == i && l.peer in s.nodes && p in s.nodes[l.peer].initial
  }

  /**
   The whole file: a settled node each of whose threads earmarked nothing or the highest piece it wanted, and that
   started out, with its peers, with every piece between them, holds every piece, with the right contents.
   */
  lemma WholeFile(cfg: Config, s: System, i: nat)
    requires Reachable(cfg, s) && i in s.nodes && Settled(s, i)
    requires forall l :: l in s.threads && l.self == i ==> Fulfilled(cfg, s.threads[l])
    requires forall p :: p in cfg.views ==> p in s.nodes[i].initial || PeerStartedWith(s, i, p)
    ensures s.nodes[i].have == cfg.views.Keys
    ensures forall p :: p in cfg.views ==> Good(cfg, s.nodes[i].store, p)
  {
    hide Inv, Good, Advertised, HighestTaken;
    CompleteIffHighestWon(cfg, s, i);
    ContentIntegrity(cfg, s, i);
    ReachableInv(cfg, s);
    HeldAreViews(cfg, s, i);
    forall p | p in cfg.views ensures p in s.nodes[i].have {
      if p !in s.nodes[i].initial {
        var l :| l in s.threads && l.self == i && l.peer in s.nodes && p in s.nodes[l.peer].initial;
        InitialAdvertised(cfg, s, l, p);
      }
    }
  }

  lemma HeldAreViews(cfg: Config, s: System, i: nat)
    requires Inv(cfg, s) && i in s.nodes
    ensures s.nodes[i].initial <= s.nodes[i].have <= cfg.views.Keys
  {
    hide Good, Coherent, AllThreadsOk, Owned, Acquired, Exclusive, CachedPublished;
    assert NodeOk(cfg, s.nodes[i]);
  }

  /** A peer's field, once read, advertises everything the peer started with. */
  lemma InitialAdvertised(cfg: Config, s: System, l: Link, p: nat)
    requires Inv(cfg, s) && l in s.threads && l.peer in s.nodes && s.threads[l].fieldRead
    requires p in s.nodes[l.peer].initial
    ensures Advertised(s, l.self, p)
  {
    hide Inv, Claims, Busy, Log;
    ThreadAt(cfg, s, l);
    var o, t, f := Opposite(l), s.threads[l], s.threads[Opposite(l)];
    ThreadAt(cfg, s, o);
    assert FieldFrom(t, f.out);
    var k :| 0 <= k < t.taken && k < |f.out| && f.out[k].BitField? && f.out[k].pieces == t.peerField;
    var m := f.out[k];
    assert m in f.out && m == BitField(m.len, m.pieces);
    SentSound(cfg, f, s.threads[Opposite(o)], s.nodes[o.self], s.nodes[o.peer], m);
  }

  /**
   When a thread drops pieces: exactly when the earmark as written earmarked something but not the highest piece
   wanted. It then drops all it earmarked; otherwise all of it becomes requests.
   */
  lemma DropsIff(cfg: Config, s: System, s': System, l: Link, order: seq<nat>)
    requires Reachable(cfg, s) && StepOf(cfg, s, s', l, Decide(order))
    ensures var t, t' := s.threads[l], s'.threads[l];
      && (t'.dropped != {} <==>
            cfg.earmark.LastOutcome? && t.granted != {} && !HighestTaken(t.granted, t.wanted))
      && (if t'.dropped == {} then t'.reqs == t.granted else t'.dropped == t.granted && t'.reqs == {})
  {
    hide Inv, HighestTaken, Here, Act;
    ReachableInv(cfg, s);
    ThreadAt(cfg, s, l);
    HereAt(cfg, s, l);
    DecideDrops(cfg, s.nodes[l.self], s.threads[l], s.threads[Opposite(l)], s.nodes[l.peer], order);
  }

  lemma DecideDrops(cfg: Config, n: Node, t: Thread, f: Thread, np: Node, order: seq<nat>)
    requires Here(cfg, n, t, f, np) && t.pc.Marking? && t.pc.next >= 8 * cfg.len
    ensures var t' := Act(cfg, t, order);
      && (t'.dropped != {} <==> cfg.earmark.LastOutcome? && t.granted != {} && !HighestTaken(t.granted, t.wanted))
      && (if t'.dropped == {} then t'.reqs == t.granted else t'.dropped == t.granted && t'.reqs == {})
  {
    DecideGranted(cfg, n, t, np);
    DecideOutcome(cfg, n, t, np, order);
    ActDrops(cfg, t, order);
    hide HighestTaken, Outcome, ValidConfig, NodeOk, ThreadOk, Claims, Requests, Act, Here;
  }

  lemma ActDrops(cfg: Config, t: Thread, order: seq<nat>)
    requires t.granted == t.diff && t.reqs == {} && t.dropped == {}
    requires t.last <==> HighestTaken(t.granted, t.wanted)
    ensures var t' := Act(cfg, t, order);
      && (t'.dropped != {} <==> cfg.earmark.LastOutcome? && t.granted != {} && !HighestTaken(t.granted, t.wanted))
      && (if t'.dropped == {} then t'.reqs == t.granted else t'.dropped == t.granted && t'.reqs == {})
  {
  }

  /** What a thread wants is the part of its peer's field its node lacks when it looks, and no other step changes it. */
  lemma WantedIsSnapshot(cfg: Config, s: System, s': System, l: Link, k: Link, e: Event)
    requires Reachable(cfg, s) && StepOf(cfg, s, s', l, e) && k in s.threads
    ensures s'.threads[k].wanted
         == if k == l && e.Diff? then s.threads[l].peerField - s.nodes[l.self].have else s.threads[k].wanted
  {
    hide Inv, Local, Enabled, ThreadOk, NodeOk;
    ReachableInv(cfg, s);
    ThreadAt(cfg, s, l);
    if k == l {
      HereAt(cfg, s, l);
      LocalWanted(cfg, l.self, s.nodes[l.self], s.threads[l], s.threads[Opposite(l)].out, e);
      if e.Diff? {
        PeerFieldFits(cfg, s.nodes[l.self], s.threads[l], s.threads[Opposite(l)], s.nodes[l.peer]);
        var field, have := s.threads[l].peerField, s.nodes[l.self].have;
        assert (set p | p in field && p !in have && p < 8 * cfg.len) == field - have;
      }
    }
  }

  lemma PeerFieldFits(cfg: Config, n: Node, t: Thread, f: Thread, np: Node)
    requires Here(cfg, n, t, f, np)
    ensures forall p :: p in t.peerField ==> p < 8 * cfg.len
  {
    hide Coherent, Good, Session, Log, Busy, Outcome, Earmarks, Choosing, Chosen;
    assert forall p :: p in t.peerField ==> p in np.have && p in cfg.views;
  }

  lemma LocalWanted(cfg: Config, me: nat, n: Node, t: Thread, inbox: seq<Message>, e: Event)
    requires 0 < cfg.maxsz && Enabled(cfg, n, t, inbox, e)
    ensures Local(cfg, me, n, t, inbox, e).1.wanted
         == if e.Diff? then set p | p in t.peerField && p !in n.have && p < 8 * cfg.len else t.wanted
  {
    hide Put, Get, Served, Strncpy, View, TimeoutSends, IsOrder, Printed, ReadInto, Requests, Handle;
    if e.Receive? {
      HandleWanted(cfg, me, n, t, inbox[t.taken], e.order, e.piece);
    }
  }

  lemma HandleWanted(cfg: Config, me: nat, n: Node, t: Thread, m: Message, order: seq<nat>, piece: Bytes)
    ensures Handle(cfg, me, n, t, m, order, piece).wanted == t.wanted
  {
    hide Dispatch;
    DispatchWanted(cfg, me, n, Send(t.(taken := t.taken + 1), ChokeStatus(t)), m, order, piece);
  }

  lemma DispatchWanted(cfg: Config, me: nat, n: Node, t: Thread, m: Message, order: seq<nat>, piece: Bytes)
    ensures Dispatch(cfg, me, n, t, m, order, piece).wanted == t.wanted
  {
    hide Requests;
    match m
    case Handshake(_) =>
    case Have(_) =>
    case BitField(_, _) =>
    case Request(_) =>
    case Piece(_, _) =>
    case _ =>
  }

  // ----- conservation -----

  /** `ls` lists the connections of node `i`, each once. */
  ghost predicate Connections(s: System, i: nat, ls: seq<Link>) {
    && (forall l :: l in ls <==> l in s.threads && l.self == i)
    && (forall a, b :: 0 <= a < b < |ls| ==> ls[a] != ls[b])
  }

  ghost function Total(ls: seq<Link>, parts: map<Link, set<nat>>): nat
    requires forall l :: l in ls ==> l in parts
  {
    if ls == [] then 0 else |parts[ls[0]]| + Total(ls[1..], parts)
  }

  /** The size of a set that splits into disjoint parts. */
  lemma {:induction false} SizeOfParts(whole: set<nat>, ls: seq<Link>, parts: map<Link, set<nat>>)
    requires forall l :: l in ls ==> l in parts && parts[l] <= whole
    requires forall p :: p in whole ==> exists l :: l in ls && p in parts[l]
    requires forall a, b :: 0 <= a < b < |ls| ==> parts[ls[a]] !! parts[ls[b]]
    ensures |whole| == Total(ls, parts)
  {
    if ls == [] {
      assert whole == {};
    } else {
      var part, rest := parts[ls[0]], whole - parts[ls[0]];
      forall l | l in ls[1..] ensures parts[l] <= rest {
        var b :| 1 <= b < |ls| && l == ls[b];
        assert parts[ls[0]] !! parts[ls[b]];
      }
      forall p | p in rest ensures exists l :: l in ls[1..] && p in parts[l] {
        var l :| l in ls && p in parts[l];
        assert l in ls[1..];
      }
      SizeOfParts(rest, ls[1..], parts);
      assert whole == part + rest;
    }
  }

  ghost function Grants(s: System): map<Link, set<nat>> {
    map l | l in s.threads :: s.threads[l].granted
  }

  ghost function Gots(s: System): map<Link, set<nat>> {
    map l | l in s.threads :: s.threads[l].got
  }

  /**
   Conservation at every node: as many pieces are earmarked as its connections have earmarked between them, and as
   many have been added, once each, as its connections have added; no more are earmarked than were initially missing.
   */
  lemma Conservation(cfg: Config, s: System, i: nat, ls: seq<Link>)
    requires Reachable(cfg, s) && i in s.nodes && Connections(s, i, ls)
    ensures var n := s.nodes[i];
      && |n.mark| == Total(ls, Grants(s))
      && n.adds == Total(ls, Gots(s))
      && n.adds <= |n.mark| <= |cfg.views.Keys - n.initial|
      && |n.initial| + n.adds == |n.have| <= |cfg.views.Keys|
  {
    hide ThreadOk, AllThreadsOk, Owned, Acquired, CachedPublished, Exclusive, NodeOk;
    ReachableInv(cfg, s);
    GrantsSplitMarks(cfg, s, i, ls);
    GotsSplitAdded(cfg, s, i, ls);
    MarksMissing(cfg, s, i);
    NodeCounts(cfg, s.nodes[i]);
  }

  lemma NodeCounts(cfg: Config, n: Node)
    requires NodeOk(cfg, n)
    ensures n.adds == |n.have - n.initial| <= |n.mark| && |n.initial| + n.adds == |n.have| <= |cfg.views.Keys|
  {
    hide Coherent, Good;
    Lru.SubsetSize(n.have - n.initial, n.mark);
    Lru.SubsetSize(n.have, cfg.views.Keys);
    assert n.have == n.initial + (n.have - n.initial);
  }

  /** Only pieces of the file that were missing at the start are ever earmarked. */
  lemma MarksMissing(cfg: Config, s: System, i: nat)
    requires Inv(cfg, s) && i in s.nodes
    ensures s.nodes[i].mark <= cfg.views.Keys - s.nodes[i].initial
    ensures |s.nodes[i].mark| <= |cfg.views.Keys - s.nodes[i].initial|
  {
    hide Coherent, Good, ThreadOk, AllThreadsOk, Acquired, CachedPublished, Exclusive;
    forall p | p in s.nodes[i].mark ensures p in cfg.views && p !in s.nodes[i].initial {
      var l :| l in s.threads && l.self == i && p in s.threads[l].granted;
      ThreadAt(cfg, s, l);
      EarmarksOf(cfg, s.threads[l], s.threads[Opposite(l)], s.nodes[l.self], s.nodes[l.peer]);
      assert NodeOk(cfg, s.nodes[i]) && NodeOk(cfg, s.nodes[l.peer]);
    }
    Lru.SubsetSize(s.nodes[i].mark, cfg.views.Keys - s.nodes[i].initial);
  }

  lemma GrantsSplitMarks(cfg: Config, s: System, i: nat, ls: seq<Link>)
    requires Inv(cfg, s) && i in s.nodes && Connections(s, i, ls)
    ensures |s.nodes[i].mark| == Total(ls, Grants(s))
  {
    hide Coherent, Good, ThreadOk, AllThreadsOk, Acquired, CachedPublished, NodeOk;
    forall l | l in ls ensures s.threads[l].granted <= s.nodes[i].mark {
      ThreadAt(cfg, s, l);
      EarmarksOf(cfg, s.threads[l], s.threads[Opposite(l)], s.nodes[l.self], s.nodes[l.peer]);
    }
    SizeOfParts(s.nodes[i].mark, ls, Grants(s));
  }

  lemma GotsSplitAdded(cfg: Config, s: System, i: nat, ls: seq<Link>)
    requires Inv(cfg, s) && i in s.nodes && Connections(s, i, ls)
    ensures |s.nodes[i].have - s.nodes[i].initial| == Total(ls, Gots(s))
  {
    hide Coherent, Good, ThreadOk, AllThreadsOk, Owned, CachedPublished;
    forall l | l in ls
      ensures s.threads[l].got <= s.threads[l].granted && s.threads[l].got <= s.nodes[i].have - s.nodes[i].initial
    {
      ThreadAt(cfg, s, l);
      EarmarksOf(cfg, s.threads[l], s.threads[Opposite(l)], s.nodes[l.self], s.nodes[l.peer]);
      assert NodeOk(cfg, s.nodes[i]);
    }
    SizeOfParts(s.nodes[i].have - s.nodes[i].initial, ls, Gots(s));
  }

  /** Past its BitField step, what a thread has earmarked is what it has outstanding, has added, or has dropped. */
  lemma ThreadConservation(cfg: Config, s: System, l: Link)
    requires Reachable(cfg, s) && l in s.threads
    requires Acted(s.threads[l])
    ensures var t := s.threads[l];
      t.granted == t.reqs + t.got + t.dropped && |t.granted| == |t.reqs| + |t.got| + |t.dropped|
  {
    hide Inv, Session, Busy, Log;
    ReachableInv(cfg, s);
    ThreadAt(cfg, s, l);
    var t, n, np := s.threads[l], s.nodes[l.self], s.nodes[l.peer];
    assert Earmarks(t, n, np) && Chosen(t, n);
    assert t.granted == t.reqs + t.got + t.dropped;
  }

  /** Every piece some node holds was held by some node at the start. */
  ghost predicate Originals(s: System) {
    forall i, p :: i in s.nodes && p in s.nodes[i].have ==> exists k :: k in s.nodes && p in s.nodes[k].initial
  }

  lemma {:induction false} NothingFromNowhere(cfg: Config, run: seq<System>, at: nat)
    requires Behaviour(cfg, run) && at < |run|
    ensures Originals(run[at])
  {
    hide Inv, StepOf, StepOk, Originals, Init;
    if at == 0 {
      StartsOriginal(cfg, run[0]);
    } else {
      NothingFromNowhere(cfg, run, at - 1);
      RunInv(cfg, run, at - 1);
      assert Step(cfg, run[at - 1], run[at - 1 + 1]);
      StaysOriginal(cfg, run[at - 1], run[at]);
    }
  }

  lemma StartsOriginal(cfg: Config, s: System)
    requires Init(cfg, s)
    ensures Originals(s)
  {
    assert forall i :: i in s.nodes ==> NewNode(cfg, s.nodes[i]);
  }

  lemma StaysOriginal(cfg: Config, s: System, s': System)
    requires Inv(cfg, s) && Step(cfg, s, s') && Originals(s)
    ensures Originals(s')
  {
    hide Inv, StepOf, StepOk;
    var l, e :| StepOf(cfg, s, s', l, e);
    StepOfOk(cfg, s, s', l, e);
    NewPieceIsPeers(cfg, s, s', l);
    forall i, p | i in s'.nodes && p in s'.nodes[i].have
      ensures exists k :: k in s'.nodes && p in s'.nodes[k].initial
    {
      var j := if p in s.nodes[i].have then i else l.peer;
      assert p in s.nodes[j].have;
      var k :| k in s.nodes && p in s.nodes[k].initial;
      assert s'.nodes[k].initial == s.nodes[k].initial;
    }
  }

  lemma NewPieceIsPeers(cfg: Config, s: System, s': System, l: Link)
    requires Inv(cfg, s) && OnlyAt(s, s', l) && Opposite(l) in s.threads && l.peer in s.nodes
    requires StepOk(cfg, s.nodes[l.self], s.threads[l], s'.nodes[l.self], s'.threads[l],
                    s.threads[Opposite(l)], s.nodes[l.peer])
    ensures forall i, p :: i in s.nodes && p in s'.nodes[i].have && p !in s.nodes[i].have ==>
      i == l.self && p in s.nodes[l.peer].have
    ensures forall i :: i in s.nodes ==>
      s'.nodes[i].initial == s.nodes[i].initial && s.nodes[i].have <= s'.nodes[i].have
    ensures forall i, p :: i in s.nodes && Good(cfg, s.nodes[i].store, p) ==> Good(cfg, s'.nodes[i].store, p)
  {
    hide NodeOk, Good, ThreadOk, AllThreadsOk, Owned, Acquired, CachedPublished, Exclusive;
    ThreadAt(cfg, s, l);
    EarmarksOf(cfg, s.threads[l], s.threads[Opposite(l)], s.nodes[l.self], s.nodes[l.peer]);
  }

  // ----- stability -----

  /** Over a run bits are only ever set, and a piece that is right stays right: through every add, get and eviction. */
  lemma {:induction false} PiecesStay(cfg: Config, run: seq<System>, a: nat, b: nat, i: nat)
    requires Behaviour(cfg, run) && a <= b < |run| && i in run[a].nodes
    ensures i in run[b].nodes && run[a].nodes[i].have <= run[b].nodes[i].have
    ensures forall p :: (Good(cfg, run[a].nodes[i].store, p) ==> Good(cfg, run[b].nodes[i].store, p))
    decreases b - a
  {
    hide Inv, StepOf, StepOk, Good;
    if a < b {
      RunInv(cfg, run, a);
      assert Step(cfg, run[a], run[a + 1]);
      var l, e :| StepOf(cfg, run[a], run[a + 1], l, e);
      StepOfOk(cfg, run[a], run[a + 1], l, e);
      NewPieceIsPeers(cfg, run[a], run[a + 1], l);
      PiecesStay(cfg, run, a + 1, b, i);
    }
  }

  /** A Piece for a piece already held only advances the connection: node, outstanding requests and log stay. */
  lemma DuplicateIgnored(cfg: Config, s: System, s': System, l: Link, order: seq<nat>, piece: Bytes)
    requires Reachable(cfg, s) && StepOf(cfg, s, s', l, Receive(order, piece))
    requires var m := s.threads[Opposite(l)].out[s.threads[l].taken]; m.Piece? && m.pcno in s.nodes[l.self].have
    ensures s'.nodes == s.nodes
    ensures s'.threads == s.threads[l := s.threads[l].(taken := s.threads[l].taken + 1)]
  {
    hide Inv;
    ReachableInv(cfg, s);
    ThreadAt(cfg, s, l);
    var t, f, n := s.threads[l], s.threads[Opposite(l)], s.nodes[l.self];
    EarmarksOf(cfg, t, f, n, s.nodes[l.peer]);
    StatusSilent(cfg, l.self, n, t, f.out[t.taken], order, piece);
    assert t.reqs - {f.out[t.taken].pcno} == t.reqs;
  }

  /** Once a thread has acted on the peer's field, no step of any thread gives it more outstanding requests. */
  lemma RequestsOnlyShrink(cfg: Config, s: System, s': System, l: Link, k: Link, e: Event)
    requires StepOf(cfg, s, s', l, e) && k in s.threads && Acted(s.threads[k])
    ensures s'.threads[k].reqs <= s.threads[k].reqs && Acted(s'.threads[k])
  {
    hide Acted, Enabled, Local;
    if k == l {
      LocalShrinks(cfg, l.self, s.nodes[l.self], s.threads[l], s.threads[Opposite(l)].out, e);
    }
  }

  lemma LocalShrinks(cfg: Config, me: nat, n: Node, t: Thread, inbox: seq<Message>, e: Event)
    requires 0 < cfg.maxsz && Enabled(cfg, n, t, inbox, e) && Acted(t)
    ensures var (n', t') := Local(cfg, me, n, t, inbox, e); t'.reqs <= t.reqs && Acted(t')
  {
    hide Put, Get, Served, Strncpy, View, TimeoutSends, IsOrder, Printed, ReadInto, Requests, Handle, MarkBit, Act;
    match e
    case Receive(order, piece) => HandleShrinks(cfg, me, n, t, inbox[t.taken], order, piece);
    case Timeout(_) =>
    case Serve(_, _) =>
    case Write(_) =>
    case Publish =>
    case _ =>
  }

  lemma HandleShrinks(cfg: Config, me: nat, n: Node, t: Thread, m: Message, order: seq<nat>, piece: Bytes)
    requires Acted(t)
    ensures var t' := Handle(cfg, me, n, t, m, order, piece); t'.reqs <= t.reqs && Acted(t')
  {
    hide Dispatch;
    DispatchShrinks(cfg, me, n, Send(t.(taken := t.taken + 1), ChokeStatus(t)), m, order, piece);
  }

  lemma DispatchShrinks(cfg: Config, me: nat, n: Node, t: Thread, m: Message, order: seq<nat>, piece: Bytes)
    requires Acted(t)
    ensures var t' := Dispatch(cfg, me, n, t, m, order, piece); t'.reqs <= t.reqs && Acted(t')
  {
    hide Requests;
    match m
    case BitField(_, _) =>
    case Request(_) =>
    case Piece(_, _) =>
    case _ =>
  }
}
