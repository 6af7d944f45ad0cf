/**
 The piece-exchange protocol as a state machine. A node runs one handler thread per connection; a connection is a
 pair of opposite links, one thread at each end. A thread's `out` is everything it has written to its socket so far
 and `taken` counts the messages it has consumed of the other end's `out`: what lies between is in flight, in order.

 Steps are as fine as the locks: every bit of the shared earmark field is tested and set in its own step, adding a
 piece is an `exists` step, a `put` step and a `flip` step, and steps of all threads of all nodes interleave freely.
 */
module Protocol {
  import opened CStrings
  import opened CacheModel

  /** A bit field on the wire: how many bytes it has and which pieces are set. */
  datatype Message =
    | Handshake(peerid: nat)
    | Choke
    | UnChoke
    | Interested
    | NotInterested
    | Have(pcno: nat)
    | BitField(len: nat, pieces: set<nat>)
    | Request(pcno: nat)
    | Piece(pcno: nat, payload: Bytes)

  /** The end at `self` of the connection between two nodes. */
  datatype Link = Link(self: nat, peer: nat)

  function Opposite(l: Link): Link {
    Link(l.peer, l.self)
  }

  datatype Pc =
    | Starting                        // an initiator that has not yet sent its handshake and bit field
    | Waiting                         // at the top of the message loop
    | Diffing                         // in earmark, before the snapshot of the node's own field
    | Marking(next: nat)              // in earmark's loop, about to look at bit `next`
    | Serving(p: nat)                 // in get_piece, past the bit test
    | Putting(p: nat, piece: Bytes)   // in add_piece, past the bit test
    | Flipping(p: nat)                // in add_piece, past the put
    | Closed                          // left the loop
    | Crashed                         // left the loop before any handshake: `nbr` is NULL at `nbr->done`
    | Failed                          // NULL `nbr` in a message case, misaligned `diff`, or "Piece fetch failed"

  /** A handler thread. The last four fields are history: they influence nothing. */
  datatype Thread = Thread(
    accepting: bool,        // the variable `client`, which is true on the accepting side
    pc: Pc,
    out: seq<Message>,
    taken: nat,
    registered: bool,       // `nbr` is not NULL
    interested: bool,
    requests: nat,
    nbrChoked: bool,        // `nbr->choked`
    chokedNode: bool,
    ntimeouts: nat,
    fieldRead: bool,        // a BitField has been received: `diff` is no longer empty
    peerLen: nat,           // bytes of the peer's field
    peerField: set<nat>,
    diff: set<nat>,
    last: bool,             // `ret` in earmark: the outcome of the last flip
    reqs: set<nat>,
    wanted: set<nat>,       // what `diff` held before earmark's loop
    granted: set<nat>,      // every piece this thread has earmarked
    got: set<nat>,          // every piece this thread has added to the store
    dropped: set<nat>)      // pieces it earmarked and then did not put in `reqs`

  datatype Node = Node(
    initial: set<nat>,      // pieces held at the start
    have: set<nat>,         // the store's bit field
    mark: set<nat>,         // the earmark field shared by the node's threads
    store: Store,           // file and cache
    adds: nat)              // how many add_piece calls have succeeded

  datatype System = System(nodes: map<nat, Node>, threads: map<Link, Thread>)

  /** What earmark returns: as written the outcome of its last test-and-set, as meant whether it won any. */
  datatype EarmarkReturn = LastOutcome | AnyWon

  /** Sizes, the string every piece of the distributed file holds, and which earmark the nodes run. */
  datatype Config = Config(len: nat, pcsz: nat, maxsz: nat, views: map<nat, Bytes>, earmark: EarmarkReturn)

  /** The choices a step makes: iteration order of `reqs`, and what uninitialised memory ends up holding. */
  datatype Event =
    | Begin
    | Receive(order: seq<nat>, piece: Bytes)
    | Diff
    | Mark
    | Decide(order: seq<nat>)
    | Serve(order: seq<nat>, loaded: Bytes)
    | Write(copy: Bytes)
    | Publish
    | Timeout(order: seq<nat>)
    | Hangup
    | Unchoke                         // the node's unchoking thread picks this thread's neighbour

  /** `order` lists the keys of an unordered map, each once. */
  ghost predicate IsOrder(order: seq<nat>, keys: set<nat>) {
    && (forall p :: p in order <==> p in keys)
    && (forall i, j :: 0 <= i < j < |order| ==> order[i] != order[j])
  }

  lemma {:induction false} SomeOrder(keys: set<nat>) returns (order: seq<nat>)
    ensures IsOrder(order, keys)
    decreases keys
  {
    if keys == {} {
      order := [];
    } else {
      var p :| p in keys;
      var rest := SomeOrder(keys - {p});
      order := [p] + rest;
      assert forall q :: q in order <==> q == p || q in rest;
    }
  }

  /** `send_requests`. */
  function Requests(order: seq<nat>): (ms: seq<Message>)
    ensures |ms| == |order| && forall i :: 0 <= i < |ms| ==> ms[i] == Request(order[i])
  {
    seq(|order|, i requires 0 <= i < |order| => Request(order[i]))
  }

  /**
   `send_haves`: the peer's pieces, in order, that `exists` says are cached (it looks a piece number up as an
   offset).
   */
  function Haves(field: set<nat>, cmap: map<int, int>, from: nat, upto: nat): (ms: seq<Message>)
    ensures forall m :: m in ms ==> m.Have?
    decreases upto - from
  {
    if from >= upto then []
    else (if from in field && from in cmap then [Have(from)] else []) + Haves(field, cmap, from + 1, upto)
  }

  /** Leaving the loop: `nbr->done = true`. */
  function Exit(t: Thread): Thread {
    t.(pc := if t.registered then Closed else Crashed)
  }

  function Send(t: Thread, ms: seq<Message>): Thread {
    t.(out := t.out + ms)
  }

  /**
   `choke_status_check`, before every message case. The copy of the status it compares with is its own parameter, so
   for the caller it stays false, and all it can ever announce is a choke.
   */
  function ChokeStatus(t: Thread): seq<Message> {
    if t.registered && t.nbrChoked then [Choke] else []
  }

  /** One message: the choke status, then the message's case. */
  function Handle(cfg: Config, me: nat, n: Node, t: Thread, m: Message, order: seq<nat>, piece: Bytes): Thread {
    Dispatch(cfg, me, n, Send(t.(taken := t.taken + 1), ChokeStatus(t)), m, order, piece)
  }

  /** One message case of `cli_handler`, up to the first step on shared state after the message's own test. */
  function Dispatch(cfg: Config, me: nat, n: Node, t: Thread, m: Message, order: seq<nat>, piece: Bytes): Thread {
    match m
    case Handshake(_) =>
      Send(t.(registered := true, interested := false, requests := 0, nbrChoked := false),
           if t.accepting then [Handshake(me)] else [])
    case Choke => t.(chokedNode := true)
    case UnChoke => Send(t.(chokedNode := false), Requests(order))
    case Interested => if t.registered then t.(interested := true) else t.(pc := Failed)
    case NotInterested => if t.registered then t.(interested := false) else t.(pc := Failed)
    case Have(p) => if p in t.reqs then Send(t, [Interested, Request(p)]) else t
    case BitField(len, pieces) =>
      if t.fieldRead || len < cfg.len then t.(pc := Failed)
      else Send(t.(fieldRead := true, peerLen := len, peerField := pieces, pc := Diffing),
                if t.accepting then [BitField(cfg.len, n.have)] else [])
    case Request(p) =>
      if t.registered && p in n.have then t.(requests := t.requests + 1, pc := Serving(p)) else t.(pc := Failed)
    case Piece(p, _) =>
      if p in n.have then t.(reqs := t.reqs - {p}) else t.(pc := Putting(p, piece))
  }

  /** One round of earmark's loop: the test-and-set of bit `k`. */
  function MarkBit(n: Node, t: Thread, k: nat): (Node, Thread) {
    if k !in t.diff then (n, t.(pc := Marking(k + 1)))
    else if k in n.mark then (n, t.(pc := Marking(k + 1), last := false, diff := t.diff - {k}))
    else (n.(mark := n.mark + {k}), t.(pc := Marking(k + 1), last := true, granted := t.granted + {k}))
  }

  /** What earmark returns at the end of its loop. */
  predicate EarmarkResult(cfg: Config, t: Thread) {
    match cfg.earmark
    case LastOutcome => t.last
    case AnyWon => t.diff != {}
  }

  /** What follows earmark, on the value it returns. */
  function Act(cfg: Config, t: Thread, order: seq<nat>): Thread {
    if EarmarkResult(cfg, t) then
      Send(t.(pc := Waiting, reqs := t.reqs + t.diff),
           [Interested] + if !t.accepting && !t.chokedNode then Requests(order) else [])
    else
      Send(t.(pc := Waiting, dropped := t.diff), [NotInterested])
  }

  /** What a receive timeout sends: all requests again and, every second time, haves. */
  function TimeoutSends(n: Node, t: Thread, order: seq<nat>): seq<Message> {
    Requests(order)
    + if (t.ntimeouts + 1) % 2 == 0 then Haves(t.peerField, n.store.index.cmap, 0, 8 * t.peerLen) else []
  }

  /** A receive timeout; the fifth ends the loop. */
  function TimeOut(n: Node, before: Thread, order: seq<nat>): Thread {
    var t := Send(before.(ntimeouts := before.ntimeouts + 1), TimeoutSends(n, before, order));
    if t.ntimeouts == 5 then Exit(t) else t
  }

  /** When a thread can take a step; `inbox` is the other end's `out`. */
  ghost predicate Enabled(cfg: Config, n: Node, t: Thread, inbox: seq<Message>, e: Event) {
    match e
    case Begin => t.pc == Starting
    case Receive(order, piece) =>
      && t.pc == Waiting && t.taken < |inbox| && IsOrder(order, t.reqs)
      && var m := inbox[t.taken]; m.Piece? ==> Printed(piece, View(m.payload), cfg.pcsz)
    case Diff => t.pc == Diffing
    case Mark => t.pc.Marking? && t.pc.next < 8 * cfg.len
    case Decide(order) => t.pc.Marking? && t.pc.next >= 8 * cfg.len && IsOrder(order, t.reqs + t.diff)
    case Serve(order, loaded) =>
      && t.pc.Serving? && IsOrder(order, t.reqs)
      && (Mapped(n.store.index, Pos(t.pc.p, cfg.pcsz))
          || ReadInto(loaded, n.store.file, Pos(t.pc.p, cfg.pcsz), cfg.pcsz))
    case Write(copy) => t.pc.Putting? && Printed(copy, View(t.pc.piece), cfg.pcsz)
    case Publish => t.pc.Flipping?
    case Timeout(order) => t.pc == Waiting && IsOrder(order, t.reqs)
    case Hangup => t.pc == Waiting
    case Unchoke => t.registered && t.nbrChoked && t.interested && t.pc != Closed
  }

  /** The thread's step: it changes only itself and its own node. */
  function Local(cfg: Config, me: nat, n: Node, t: Thread, inbox: seq<Message>, e: Event): (Node, Thread)
    requires 0 < cfg.maxsz && Enabled(cfg, n, t, inbox, e)
  {
    match e
    case Begin => (n, Send(t.(pc := Waiting), [Handshake(me), BitField(cfg.len, n.have)]))
    case Receive(order, piece) => (n, Handle(cfg, me, n, t, inbox[t.taken], order, piece))
    case Diff =>
      var diff := set p | p in t.peerField && p !in n.have && p < 8 * cfg.len;
      (n, t.(pc := Marking(0), last := false, diff := diff, wanted := diff))
    case Mark => MarkBit(n, t, t.pc.next)
    case Decide(order) => (n, Act(cfg, t, order))
    case Serve(order, loaded) =>
      var p := t.pc.p;
      (n.(store := Get(n.store, p, loaded, cfg.pcsz, cfg.maxsz)),
       Send(t.(pc := Waiting),
            [Piece(p, View(Strncpy(Served(n.store, Pos(p, cfg.pcsz), loaded))))]
            + if t.chokedNode then [] else Requests(order)))
    case Write(copy) =>
      (n.(store := Put(n.store, t.pc.p, t.pc.piece, copy, cfg.pcsz, cfg.maxsz)), t.(pc := Flipping(t.pc.p)))
    case Publish =>
      var p := t.pc.p;
      (n.(have := n.have + {p}, adds := n.adds + 1),
       t.(pc := Waiting, reqs := t.reqs - {p}, got := t.got + {p}))
    case Timeout(order) => (n, TimeOut(n, t, order))
    case Hangup => (n, Exit(t))
    case Unchoke => (n, t.(nbrChoked := false))
  }

  /** Links come in opposite pairs between distinct nodes, one end accepting. */
  ghost predicate WellLinked(s: System) {
    && (forall l :: l in s.threads ==> l.self != l.peer && l.self in s.nodes && l.peer in s.nodes)
    && (forall l {:trigger Opposite(l)} :: l in s.threads ==>
         Opposite(l) in s.threads && s.threads[l].accepting != s.threads[Opposite(l)].accepting)
  }

  /** One step of the whole system: some thread of some node moves. */
  ghost predicate StepOf(cfg: Config, s: System, s': System, l: Link, e: Event) {
    && 0 < cfg.maxsz && l in s.threads && Opposite(l) in s.threads && l.self in s.nodes
    && Enabled(cfg, s.nodes[l.self], s.threads[l], s.threads[Opposite(l)].out, e)
    && var (n, t) := Local(cfg, l.self, s.nodes[l.self], s.threads[l], s.threads[Opposite(l)].out, e);
       s' == System(s.nodes[l.self := n], s.threads[l := t])
  }

  ghost predicate Step(cfg: Config, s: System, s': System) {
    exists l, e :: StepOf(cfg, s, s', l, e)
  }

  /** The file's bytes of piece `p` hold the string the distributed file has there. */
  ghost predicate Good(cfg: Config, st: Store, p: nat) {
    && p in cfg.views
    && Terminated(Region(st.file, Pos(p, cfg.pcsz), cfg.pcsz))
    && View(Region(st.file, Pos(p, cfg.pcsz), cfg.pcsz)) == cfg.views[p]
  }

  /** Every piece number fits the field and every piece's string fits, terminated, in a piece. */
  ghost predicate ValidConfig(cfg: Config) {
    && 0 < cfg.pcsz && 0 < cfg.maxsz
    && forall p :: p in cfg.views ==> p < 8 * cfg.len && |cfg.views[p]| < cfg.pcsz && 0 !in cfg.views[p]
  }

  function NewThread(accepting: bool): Thread {
    Thread(accepting, if accepting then Waiting else Starting, [], 0, false, false, 0, false, false, 0,
           false, 0, {}, {}, false, {}, {}, {}, {}, {})
  }

  /** A node that holds `initial`, whose file has the right strings there, and whose cache is empty. */
  ghost predicate NewNode(cfg: Config, n: Node) {
    && n == Node(n.initial, n.initial, {}, CacheModel.Store(n.store.file, EMPTY), 0)
    && forall p :: p in n.initial ==> Good(cfg, n.store, p)
  }

  ghost predicate Init(cfg: Config, s: System) {
    && ValidConfig(cfg) && WellLinked(s)
    && (forall l :: l in s.threads ==> s.threads[l] == NewThread(s.threads[l].accepting))
    && (forall i :: i in s.nodes ==> NewNode(cfg, s.nodes[i]))
  }

  /** A run: an initial state, then one step after another. */
  ghost predicate Behaviour(cfg: Config, run: seq<System>) {
    && run != [] && Init(cfg, run[0])
    && forall i :: 0 <= i < |run| - 1 ==> Step(cfg, run[i], run[i + 1])
  }

  ghost predicate Reachable(cfg: Config, s: System) {
    exists run :: Behaviour(cfg, run) && s == run[|run| - 1]
  }
}
