/** What every step of the protocol keeps. */
module Invariants {
  import opened CStrings
  import opened CacheModel
  import opened Protocol

  ghost predicate HandshakeFirst(out: seq<Message>) {
    forall k :: 0 <= k < |out| ==> (out[k].Handshake? <==> k == 0)
  }

  ghost predicate OneField(out: seq<Message>) {
    forall a, b :: 0 <= a < b < |out| ==> !(out[a].BitField? && out[b].BitField?)
  }

  /** A bit field is among the first `upto` messages. */
  ghost predicate FieldIn(out: seq<Message>, upto: nat) {
    exists k :: 0 <= k < upto && k < |out| && out[k].BitField?
  }

  /** The peer's field as the thread knows it is one the peer has sent. */
  ghost predicate FieldFrom(t: Thread, out: seq<Message>) {
    exists k :: 0 <= k < t.taken && k < |out| && out[k].BitField? && out[k].pieces == t.peerField
  }

  /** Order of messages on a connection, as seen from thread `t` with `f` at the other end. */
  ghost predicate Session(t: Thread, f: Thread) {
    && t.taken <= |f.out|
    && HandshakeFirst(t.out) && OneField(t.out)
    && (t.registered <==> 0 < t.taken)
    && (t.fieldRead <==> FieldIn(f.out, t.taken)) && (t.fieldRead ==> FieldFrom(t, f.out))
    && (t.accepting ==>
         t.pc != Starting && (t.registered <==> t.out != []) && (t.fieldRead <==> FieldIn(t.out, |t.out|)))
    && (!t.accepting ==>
         if t.pc == Starting then t.out == [] && t.taken == 0 else |t.out| >= 2 && t.out[1].BitField?)
  }

  /** The thread is fetching `p`, or has fetched it. */
  predicate Wants(t: Thread, p: nat) {
    p in t.reqs || p in t.got
  }

  /** A thread's earmarks: marked at its node, held by its peer, and added to the store only by itself. */
  ghost predicate Earmarks(t: Thread, n: Node, np: Node) {
    && (forall p :: p in t.granted ==> p in t.peerField && p in n.mark && p in np.have && (p in n.have <==> p in t.got))
    && (forall p :: p in t.got ==> p in t.granted && p !in t.reqs && p !in t.dropped)
    && (forall p :: p in t.reqs ==> p in t.granted && p !in t.dropped)
    && (forall p :: p in t.dropped ==> p in t.granted)
  }

  /** In earmark's loop: the bits already looked at that are left in `diff` are the earmarks. */
  ghost predicate Choosing(t: Thread, n: Node) {
    && t.pc.Marking? && t.fieldRead
    && (forall p :: p !in t.reqs && p !in t.got && p !in t.dropped)
    && (forall p :: p in t.diff ==> p in t.peerField && p !in n.initial)
    && (forall p :: p in t.granted <==> p in t.diff && p < t.pc.next)
    && (forall p :: p in t.peerField ==> p in n.have || p in n.mark || (p in t.diff && t.pc.next <= p))
  }

  /** Past the loop: every earmark is outstanding, fetched or dropped, and no piece of the peer's is overlooked. */
  ghost predicate Chosen(t: Thread, n: Node) {
    && t.fieldRead
    && (forall p :: p in t.granted ==> Wants(t, p) || p in t.dropped)
    && (forall p :: p in t.peerField ==> p in n.have || p in n.mark)
  }

  /** The thread has acted on its peer's field. */
  predicate Acted(t: Thread) {
    t.fieldRead && !t.pc.Diffing? && !t.pc.Marking?
  }

  /** The highest wanted piece below `k` is one of those taken. */
  ghost predicate LastTaken(taken: set<nat>, wanted: set<nat>, k: nat) {
    exists p :: p in taken && p < k && forall q :: q in wanted && q < k ==> q <= p
  }

  /** The highest wanted piece is one of those taken. */
  ghost predicate HighestTaken(taken: set<nat>, wanted: set<nat>) {
    exists p :: p in taken && forall q :: q in wanted ==> q <= p
  }

  /** The thread earmarked nothing, or the highest piece it wanted; always so for the earmark that is meant. */
  ghost predicate Fulfilled(cfg: Config, t: Thread) {
    cfg.earmark.AnyWon? || t.granted == {} || HighestTaken(t.granted, t.wanted)
  }

  /** `wanted` is the part of the peer's field the node did not have when the thread looked. */
  ghost predicate WantedOfField(t: Thread, n: Node) {
    && t.granted <= t.wanted <= t.peerField
    && (forall p :: p in t.wanted ==> p !in n.initial)
    && (forall p :: p in t.peerField ==> p in t.wanted || p in n.have)
  }

  /** What the thread wanted, and what became of it. */
  ghost predicate Outcome(cfg: Config, t: Thread, n: Node) {
    if t.pc.Marking? then
      && WantedOfField(t, n) && t.diff <= t.wanted
      && (forall p :: p in t.wanted && t.pc.next <= p ==> p in t.diff)
      && (t.last <==> LastTaken(t.granted, t.wanted, t.pc.next))
    else if Acted(t) then
      WantedOfField(t, n) && (t.dropped == {} <==> Fulfilled(cfg, t))
    else t.dropped == {}
  }

  /** The pieces a thread has to do with; `n` is its own node and `np` its peer's. */
  ghost predicate Claims(t: Thread, n: Node, np: Node) {
    && Earmarks(t, n, np)
    && (forall p :: p in t.peerField ==> p in np.have)
    && (if t.pc.Marking? then Choosing(t, n)
        else if t.pc.Diffing? then t.fieldRead && t.granted == {}
        else if t.fieldRead then Chosen(t, n)
        else t.granted == {} && t.peerField == {})
  }

  /** What a thread part-way through a message relies on. */
  ghost predicate Busy(cfg: Config, t: Thread, f: Thread, n: Node) {
    match t.pc
    case Serving(p) => t.registered && p in n.have && Wants(f, p)
    case Putting(p, piece) =>
      && p in t.reqs && p in cfg.views
      && |piece| == cfg.pcsz && Terminated(piece) && View(piece) == cfg.views[p]
    case Flipping(p) => p in t.reqs && Good(cfg, n.store, p)
    case Closed => t.registered
    case Crashed => !t.registered
    case Failed => false
    case _ => true
  }

  /** What a message written by `t`, of node `n`, to `f` says is true. */
  ghost predicate Sound(cfg: Config, m: Message, t: Thread, f: Thread, n: Node) {
    match m
    case Choke => false
    case UnChoke => false
    case Have(p) => p in t.peerField
    case BitField(len, pieces) => len == cfg.len && n.initial <= pieces <= n.have
    case Request(p) => Wants(t, p)
    case Piece(p, payload) => Wants(f, p) && p in cfg.views && payload == cfg.views[p]
    case _ => true
  }

  ghost predicate Log(cfg: Config, t: Thread, f: Thread, n: Node) {
    forall m :: m in t.out ==> Sound(cfg, m, t, f, n)
  }

  ghost predicate ThreadOk(cfg: Config, t: Thread, f: Thread, n: Node, np: Node) {
    && Session(t, f) && Claims(t, n, np) && Outcome(cfg, t, n) && Busy(cfg, t, f, n) && Log(cfg, t, f, n)
    && !t.chokedNode && !t.nbrChoked
  }

  ghost predicate NodeOk(cfg: Config, n: Node) {
    && n.initial <= n.have && n.have <= cfg.views.Keys
    && (forall p :: p in n.mark ==> p !in n.initial)
    && (forall p :: p in n.have ==> p in n.initial || p in n.mark)
    && Coherent(n.store, cfg.pcsz, cfg.maxsz)
    && (forall p :: p in n.have ==> Good(cfg, n.store, p))
    && n.adds == |n.have - n.initial|
  }

  /** No piece is earmarked by two threads of a node. */
  ghost predicate Exclusive(s: System) {
    forall l, k :: l in s.threads && k in s.threads && l.self == k.self && l != k ==>
      s.threads[l].granted !! s.threads[k].granted
  }

  /** Every earmark belongs to some thread. */
  ghost predicate Owned(s: System)
    requires WellLinked(s)
  {
    forall i, p :: i in s.nodes && p in s.nodes[i].mark ==>
      exists l :: l in s.threads && l.self == i && p in s.threads[l].granted
  }

  /** Every piece acquired was added by some thread. */
  ghost predicate Acquired(s: System)
    requires WellLinked(s)
  {
    forall i, p :: i in s.nodes && p in s.nodes[i].have - s.nodes[i].initial ==>
      exists l :: l in s.threads && l.self == i && p in s.threads[l].got
  }

  ghost predicate FlippingAt(s: System, i: nat, p: nat) {
    exists l :: l in s.threads && l.self == i && s.threads[l].pc == Flipping(p)
  }

  /** A cached piece has its bit set, or is about to. */
  ghost predicate CachedPublished(cfg: Config, s: System) {
    forall i, p: nat :: i in s.nodes && Pos(p, cfg.pcsz) in s.nodes[i].store.index.cmap ==>
      p in s.nodes[i].have || FlippingAt(s, i, p)
  }

  ghost predicate AllThreadsOk(cfg: Config, s: System)
    requires WellLinked(s)
  {
    forall l {:trigger Opposite(l)} :: l in s.threads ==>
      ThreadOk(cfg, s.threads[l], s.threads[Opposite(l)], s.nodes[l.self], s.nodes[l.peer])
  }

  ghost predicate Inv(cfg: Config, s: System) {
    && ValidConfig(cfg) && WellLinked(s)
    && AllThreadsOk(cfg, s)
    && (forall i :: i in s.nodes ==> NodeOk(cfg, s.nodes[i]))
    && Exclusive(s) && Owned(s) && Acquired(s) && CachedPublished(cfg, s)
  }

  lemma InitInv(cfg: Config, s: System)
    requires Init(cfg, s)
    ensures Inv(cfg, s)
  {
    forall l | l in s.threads
      ensures ThreadOk(cfg, s.threads[l], s.threads[Opposite(l)], s.nodes[l.self], s.nodes[l.peer])
    {
      NewThreadOk(cfg, s.threads[l], s.threads[Opposite(l)], s.nodes[l.self], s.nodes[l.peer]);
    }
  }

  lemma NewThreadOk(cfg: Config, t: Thread, f: Thread, n: Node, np: Node)
    requires t == NewThread(t.accepting) && f == NewThread(f.accepting)
    ensures ThreadOk(cfg, t, f, n, np)
  {
  }

  // ----- what a step may change -----

  ghost predicate NodeGrows(cfg: Config, n: Node, n': Node) {
    && n'.initial == n.initial && n.have <= n'.have && n.mark <= n'.mark
    && forall p :: Good(cfg, n.store, p) ==> Good(cfg, n'.store, p)
  }

  ghost predicate ThreadGrows(t: Thread, t': Thread) {
    && t'.accepting == t.accepting && t.out <= t'.out
    && (forall p :: Wants(t, p) ==> Wants(t', p)) && t.granted <= t'.granted && t.got <= t'.got
  }

  /** A step of thread `t` of node `n`, with `f` at the other end and `np` the peer's node, is in order. */
  ghost predicate StepOk(cfg: Config, n: Node, t: Thread, n': Node, t': Thread, f: Thread, np: Node) {
    && NodeGrows(cfg, n, n') && ThreadGrows(t, t')
    && ThreadOk(cfg, t', f, n', np) && NodeOk(cfg, n')
    && (forall p :: p in n'.mark ==> p in n.mark || p in t'.granted)
    && (forall p :: p in t'.granted ==> p in t.granted || p !in n.mark)
    && (forall p :: p in n'.have ==> p in n.have || (p in t'.got && p in t.granted))
    && (forall p: nat :: Pos(p, cfg.pcsz) in n'.store.index.cmap ==>
          Pos(p, cfg.pcsz) in n.store.index.cmap || p in n'.have || t'.pc == Flipping(p))
    && (t.pc.Flipping? ==> t'.pc == t.pc || t.pc.p in n'.have)
  }

  // ----- another thread, seen across a step -----

  lemma SessionAcross(t: Thread, f: Thread, f': Thread)
    requires Session(t, f) && f.out <= f'.out
    ensures Session(t, f')
  {
  }

  lemma ClaimsAcross(cfg: Config, t: Thread, n: Node, n': Node, np: Node, np': Node)
    requires Claims(t, n, np) && NodeGrows(cfg, n, n') && NodeGrows(cfg, np, np')
    requires forall p :: p in n'.have && p in t.granted ==> p in n.have
    ensures Claims(t, n', np')
  {
  }

  lemma OutcomeAcross(cfg: Config, t: Thread, n: Node, n': Node)
    requires Outcome(cfg, t, n) && n.have <= n'.have && n.initial == n'.initial
    ensures Outcome(cfg, t, n')
  {
    hide LastTaken, Fulfilled;
  }

  lemma BusyAcross(cfg: Config, t: Thread, f: Thread, f': Thread, n: Node, n': Node)
    requires Busy(cfg, t, f, n) && NodeGrows(cfg, n, n') && ThreadGrows(f, f')
    ensures Busy(cfg, t, f', n')
  {
  }

  lemma LogAcross(cfg: Config, t: Thread, f: Thread, f': Thread, n: Node, n': Node)
    requires Log(cfg, t, f, n) && NodeGrows(cfg, n, n') && ThreadGrows(f, f')
    ensures Log(cfg, t, f', n')
  {
    forall m | m in t.out ensures Sound(cfg, m, t, f', n') {
      assert Sound(cfg, m, t, f, n);
    }
  }

  lemma ThreadAcross(cfg: Config, t: Thread, f: Thread, f': Thread, n: Node, n': Node, np: Node, np': Node)
    requires ThreadOk(cfg, t, f, n, np) && ThreadGrows(f, f') && NodeGrows(cfg, n, n') && NodeGrows(cfg, np, np')
    requires forall p :: p in n'.have && p in t.granted ==> p in n.have
    ensures ThreadOk(cfg, t, f', n', np')
  {
    SessionAcross(t, f, f');
    ClaimsAcross(cfg, t, n, n', np, np');
    OutcomeAcross(cfg, t, n, n');
    BusyAcross(cfg, t, f, f', n, n');
    LogAcross(cfg, t, f, f', n, n');
  }

  // ----- the whole system across a step -----

  /** Only thread `l` and its node may differ. */
  ghost predicate OnlyAt(s: System, s': System, l: Link) {
    && l in s.threads && l.self in s.nodes
    && s'.nodes.Keys == s.nodes.Keys && s'.threads.Keys == s.threads.Keys
    && (forall i :: i in s.nodes && i != l.self ==> s'.nodes[i] == s.nodes[i])
    && (forall k :: k in s.threads && k != l ==> s'.threads[k] == s.threads[k])
  }

  lemma KeepsWellLinked(s: System, s': System, l: Link)
    requires WellLinked(s) && OnlyAt(s, s', l) && s'.threads[l].accepting == s.threads[l].accepting
    ensures WellLinked(s')
  {
    forall k {:trigger Opposite(k)} | k in s'.threads
      ensures Opposite(k) in s'.threads && s'.threads[k].accepting != s'.threads[Opposite(k)].accepting
    {
      assert s.threads[k].accepting != s.threads[Opposite(k)].accepting;
    }
  }

  lemma KeepsThreads(cfg: Config, s: System, s': System, l: Link)
    requires WellLinked(s) && WellLinked(s') && OnlyAt(s, s', l) && AllThreadsOk(cfg, s)
    requires NodeGrows(cfg, s.nodes[l.self], s'.nodes[l.self]) && ThreadGrows(s.threads[l], s'.threads[l])
    requires forall k, p :: k in s.threads && k != l && k.self == l.self && p in s.threads[k].granted ==>
      p in s'.nodes[l.self].have ==> p in s.nodes[l.self].have
    requires ThreadOk(cfg, s'.threads[l], s.threads[Opposite(l)], s'.nodes[l.self], s.nodes[l.peer])
    ensures AllThreadsOk(cfg, s')
  {
    forall k | k in s'.threads
      ensures ThreadOk(cfg, s'.threads[k], s'.threads[Opposite(k)], s'.nodes[k.self], s'.nodes[k.peer])
    {
      if k != l {
        ThreadAcross(cfg, s.threads[k], s.threads[Opposite(k)], s'.threads[Opposite(k)],
                     s.nodes[k.self], s'.nodes[k.self], s.nodes[k.peer], s'.nodes[k.peer]);
      }
    }
  }

  lemma KeepsExclusive(s: System, s': System, l: Link)
    requires OnlyAt(s, s', l) && Exclusive(s)
    requires forall k :: k in s.threads && k.self == l.self ==> s.threads[k].granted <= s.nodes[l.self].mark
    requires forall p :: p in s'.threads[l].granted ==> p in s.threads[l].granted || p !in s.nodes[l.self].mark
    ensures Exclusive(s')
  {
    forall k | k in s'.threads && k.self == l.self && k != l
      ensures s'.threads[k].granted !! s'.threads[l].granted
    {
      assert s.threads[k].granted !! s.threads[l].granted;
    }
  }

  lemma KeepsOwned(s: System, s': System, l: Link)
    requires WellLinked(s) && WellLinked(s') && OnlyAt(s, s', l) && Owned(s)
    requires s.threads[l].granted <= s'.threads[l].granted
    requires forall p :: p in s'.nodes[l.self].mark ==> p in s.nodes[l.self].mark || p in s'.threads[l].granted
    ensures Owned(s')
  {
    forall i, p | i in s'.nodes && p in s'.nodes[i].mark
      ensures exists k :: k in s'.threads && k.self == i && p in s'.threads[k].granted
    {
      if i == l.self && p in s'.threads[l].granted {
      } else {
        var k :| k in s.threads && k.self == i && p in s.threads[k].granted;
        assert k in s'.threads;
      }
    }
  }

  lemma KeepsAcquired(s: System, s': System, l: Link)
    requires WellLinked(s) && WellLinked(s') && OnlyAt(s, s', l) && Acquired(s)
    requires s.threads[l].got <= s'.threads[l].got && s'.nodes[l.self].initial == s.nodes[l.self].initial
    requires forall p :: p in s'.nodes[l.self].have ==> p in s.nodes[l.self].have || p in s'.threads[l].got
    ensures Acquired(s')
  {
    forall i, p | i in s'.nodes && p in s'.nodes[i].have - s'.nodes[i].initial
      ensures exists k :: k in s'.threads && k.self == i && p in s'.threads[k].got
    {
      if i == l.self && p in s'.threads[l].got {
      } else {
        assert p in s.nodes[i].have - s.nodes[i].initial;
        var k :| k in s.threads && k.self == i && p in s.threads[k].got;
        assert k in s'.threads;
      }
    }
  }

  lemma KeepsCached(cfg: Config, s: System, s': System, l: Link)
    requires OnlyAt(s, s', l) && CachedPublished(cfg, s)
    requires s.nodes[l.self].have <= s'.nodes[l.self].have
    requires forall p: nat :: Pos(p, cfg.pcsz) in s'.nodes[l.self].store.index.cmap ==>
      || Pos(p, cfg.pcsz) in s.nodes[l.self].store.index.cmap
      || p in s'.nodes[l.self].have || s'.threads[l].pc == Flipping(p)
    requires var pc := s.threads[l].pc; pc.Flipping? ==> s'.threads[l].pc == pc || pc.p in s'.nodes[l.self].have
    ensures CachedPublished(cfg, s')
  {
    forall i, p: nat | i in s'.nodes && Pos(p, cfg.pcsz) in s'.nodes[i].store.index.cmap
      ensures p in s'.nodes[i].have || FlippingAt(s', i, p)
    {
      if Pos(p, cfg.pcsz) in s.nodes[i].store.index.cmap {
        if p !in s.nodes[i].have {
          assert FlippingAt(s, i, p);
          var k :| k in s.threads && k.self == i && s.threads[k].pc == Flipping(p);
          assert k in s'.threads;
        }
      } else if s'.threads[l].pc == Flipping(p) {
        assert l in s'.threads;
      }
    }
  }

  /** From the invariant: what the other threads of a node have earmarked is marked, and none of it is `l`'s. */
  lemma OthersGranted(cfg: Config, s: System, l: Link)
    requires Inv(cfg, s) && l in s.threads
    ensures forall k :: k in s.threads && k.self == l.self ==> s.threads[k].granted <= s.nodes[l.self].mark
    ensures forall k :: k in s.threads && k.self == l.self && k != l ==>
      s.threads[l].granted !! s.threads[k].granted
  {
    forall k | k in s.threads ensures s.threads[k].granted <= s.nodes[k.self].mark {
      assert ThreadOk(cfg, s.threads[k], s.threads[Opposite(k)], s.nodes[k.self], s.nodes[k.peer]);
    }
  }

  lemma StepOkKeepsThreads(cfg: Config, s: System, s': System, l: Link)
    requires Inv(cfg, s) && OnlyAt(s, s', l)
    requires StepOk(cfg, s.nodes[l.self], s.threads[l], s'.nodes[l.self], s'.threads[l],
                    s.threads[Opposite(l)], s.nodes[l.peer])
    ensures WellLinked(s') && AllThreadsOk(cfg, s')
  {
    OthersGranted(cfg, s, l);
    KeepsWellLinked(s, s', l);
    KeepsThreads(cfg, s, s', l);
  }

  lemma StepOkKeepsOwners(cfg: Config, s: System, s': System, l: Link)
    requires Inv(cfg, s) && OnlyAt(s, s', l) && WellLinked(s')
    requires StepOk(cfg, s.nodes[l.self], s.threads[l], s'.nodes[l.self], s'.threads[l],
                    s.threads[Opposite(l)], s.nodes[l.peer])
    ensures Exclusive(s') && Owned(s') && Acquired(s') && CachedPublished(cfg, s')
  {
    OthersGranted(cfg, s, l);
    KeepsExclusive(s, s', l);
    KeepsOwned(s, s', l);
    KeepsAcquired(s, s', l);
    KeepsCached(cfg, s, s', l);
  }

  /** A step in order, of any thread, keeps the invariant of the whole system. */
  lemma StepOkKeepsInv(cfg: Config, s: System, s': System, l: Link)
    requires Inv(cfg, s) && OnlyAt(s, s', l)
    requires StepOk(cfg, s.nodes[l.self], s.threads[l], s'.nodes[l.self], s'.threads[l],
                    s.threads[Opposite(l)], s.nodes[l.peer])
    ensures Inv(cfg, s')
  {
    StepOkKeepsThreads(cfg, s, s', l);
    StepOkKeepsOwners(cfg, s, s', l);
  }
}
