/** Runs of the protocol that show what its theorems leave possible does happen. */
module Witnesses {
  import opened CacheModel
  import opened Protocol
  import opened Invariants
  import opened Steps
  import opened Theorems
  import opened Mesh
  import opened Progress
  import Earmarking

  /** One more step of a run. */
  lemma Move(cfg: Config, s: System, l: Link, e: Event) returns (s': System)
    requires Reachable(cfg, s) && 0 < cfg.maxsz && l in s.threads && Opposite(l) in s.threads && l.self in s.nodes
    requires Enabled(cfg, s.nodes[l.self], s.threads[l], s.threads[Opposite(l)].out, e)
    ensures Reachable(cfg, s')
    ensures var (n, t) := Local(cfg, l.self, s.nodes[l.self], s.threads[l], s.threads[Opposite(l)].out, e);
      s' == System(s.nodes[l.self := n], s.threads[l := t])
  {
    hide Enabled, Local, Init;
    var (n, t) := Local(cfg, l.self, s.nodes[l.self], s.threads[l], s.threads[Opposite(l)].out, e);
    s' := System(s.nodes[l.self := n], s.threads[l := t]);
    var run :| Behaviour(cfg, run) && s == run[|run| - 1];
    var longer := run + [s'];
    forall i | 0 <= i < |longer| - 1 ensures Step(cfg, longer[i], longer[i + 1]) {
      if i < |run| - 1 {
        assert Step(cfg, run[i], run[i + 1]);
      } else {
        assert StepOf(cfg, s, s', l, e);
      }
    }
    assert Behaviour(cfg, longer) && s' == longer[|longer| - 1];
  }

  lemma InitReachable(cfg: Config, s: System)
    requires Init(cfg, s)
    ensures Reachable(cfg, s)
  {
    hide Init;
    assert Behaviour(cfg, [s]);
  }

  // ----- a thread that dereferences a NULL neighbour -----

  /** Whatever the nodes hold: an accepting thread whose peer hangs up before its handshake crashes. */
  lemma HangupCrashes(cfg: Config, s: System, l: Link) returns (s': System)
    requires Init(cfg, s) && l in s.threads && s.threads[l].accepting
    ensures StepOf(cfg, s, s', l, Hangup) && s'.threads[l].pc == Crashed
  {
    hide NewNode;
    assert Opposite(l) in s.threads;
    s' := System(s.nodes[l.self := s.nodes[l.self]], s.threads[l := Exit(s.threads[l])]);
  }

  // ----- a settled node that misses a piece it was offered -----

  /** Nobody else moving, earmark's loop run to its end. */
  lemma {:induction false} MarksReached(cfg: Config, s: System, l: Link) returns (s': System)
    requires Reachable(cfg, s) && 0 < cfg.maxsz && l in s.threads && Opposite(l) in s.threads && l.self in s.nodes
    requires s.threads[l].pc.Marking?
    ensures Reachable(cfg, s')
    ensures var (n, t) := Earmarking.MarkUpto(s.nodes[l.self], s.threads[l], 8 * cfg.len);
      s' == System(s.nodes[l.self := n], s.threads[l := t])
    decreases 8 * cfg.len - s.threads[l].pc.next
  {
    hide MarkBit, Handle, Act, TimeOut, Get, Put, Served, Reachable;
    if s.threads[l].pc.next >= 8 * cfg.len {
      s' := s;
      assert s.nodes[l.self := s.nodes[l.self]] == s.nodes && s.threads[l := s.threads[l]] == s.threads;
    } else {
      MarkSilent(cfg, s.nodes[l.self], s.threads[l]);
      var s1 := Move(cfg, s, l, Mark);
      s' := MarksReached(cfg, s1, l);
    }
  }

  /** The whole of earmark's loop: what is wanted becomes marked, what was free is the thread's. */
  lemma EarmarksAll(cfg: Config, s: System, l: Link) returns (s': System)
    requires Reachable(cfg, s) && 0 < cfg.maxsz && l in s.threads && Opposite(l) in s.threads && l.self in s.nodes
    requires var t := s.threads[l]; t.pc == Marking(0) && !t.last && forall p :: p in t.diff ==> p < 8 * cfg.len
    ensures Reachable(cfg, s')
    ensures var n, t := s.nodes[l.self], s.threads[l];
      var left := t.diff - n.mark;
      s' == System(s.nodes[l.self := n.(mark := n.mark + t.diff)],
                   s.threads[l := t.(pc := Marking(8 * cfg.len), diff := left, granted := left,
                                     last := Earmarking.LastWon(t.diff, n.mark, 8 * cfg.len))])
  {
    var n, t := s.nodes[l.self], s.threads[l];
    s' := MarksReached(cfg, s, l);
    Earmarking.MarkUptoFrame(cfg, n, t, 8 * cfg.len);
    Earmarking.UninterruptedMarking(n, t, 8 * cfg.len);
    EarmarksMidLoop(cfg, s', l);
    assert (set p | p in t.diff - n.mark && p < 8 * cfg.len) == t.diff - n.mark;
  }

  /** Two pieces of one byte, each holding the empty string. */
  const CFG := Config(1, 1, 1, map[0 := [], 1 := []], LastOutcome)

  /** In a mesh of three nodes, 1 and 2 have the whole file and 3, which dials both, has nothing. */
  const A := Link(3, 1)
  const A' := Link(1, 3)
  const B := Link(3, 2)
  const B' := Link(2, 3)

  function Holding(pieces: set<nat>): Protocol.Node {
    Protocol.Node(pieces, pieces, {}, CacheModel.Store([0, 0], EMPTY), 0)
  }

  ghost function Start(): System {
    System(map[1 := Holding({0, 1}), 2 := Holding({0, 1}), 3 := Holding({})], MeshThreads([1, 2, 3]))
  }

  lemma StartReachable()
    ensures Reachable(CFG, Start())
    ensures {A, A', B, B'} <= Start().threads.Keys
    ensures Start().threads[A] == Start().threads[B] == NewThread(false)
    ensures Start().threads[A'] == Start().threads[B'] == NewThread(true)
    ensures forall l :: l in Start().threads ==>
      Start().threads[l].ntimeouts == 0 && (l.self == 3 ==> l == A || l == B)
  {
    hide NewNode, MeshThreads, ConnectionAt;
    HoldingIsNew({});
    HoldingIsNew({0, 1});
    MeshIsInitialIff(CFG, [1, 2, 3], Start().nodes);
    InitReachable(CFG, Start());
    MeshRoles();
  }

  lemma MeshRoles()
    ensures var ts := MeshThreads([1, 2, 3]);
      && {A, A', B, B'} <= ts.Keys
      && ts[A] == ts[B] == NewThread(false) && ts[A'] == ts[B'] == NewThread(true)
      && forall l :: l in ts ==> ts[l].ntimeouts == 0 && (l.self == 3 ==> l == A || l == B)
  {
    hide ConnectionAt;
    var ids: seq<nat> := [1, 2, 3];
    RoleAt(ids, 0, 2);
    RoleAt(ids, 2, 0);
    RoleAt(ids, 1, 2);
    RoleAt(ids, 2, 1);
    assert 1 in ids && 2 in ids && 3 in ids;
  }

  lemma HoldingIsNew(pieces: set<nat>)
    requires forall p :: p in pieces ==> p < 2
    ensures NewNode(CFG, Holding(pieces))
  {
    hide Good;
    forall p: nat | p < 2 ensures Good(CFG, CacheModel.Store([0, 0], EMPTY), p) {
      ZeroIsGood(p);
    }
  }

  lemma ZeroIsGood(p: nat)
    requires p < 2
    ensures Good(CFG, CacheModel.Store([0, 0], EMPTY), p)
  {
    assert Pos(p, 1) == p;
    hide Pos;
    assert Region([0, 0], p, 1) == [0];
  }

  function Greeting(me: nat, have: set<nat>): seq<Message> {
    [Handshake(me), BitField(1, have)]
  }

  /** An accepting thread that has taken the peer's handshake. */
  function Greeted(me: nat): Thread {
    NewThread(true).(out := [Handshake(me)], taken := 1, registered := true)
  }

  /** The same thread once it has taken the peer's empty field, before earmark's loop. */
  function Offered(me: nat, have: set<nat>): Thread {
    Greeted(me).(out := Greeting(me, have), taken := 2, fieldRead := true, peerLen := 1, pc := Marking(0))
  }

  lemma Handshaken(me: nat, n: Protocol.Node, m: Message)
    requires m.Handshake?
    ensures Handle(CFG, me, n, NewThread(true), m, [], []) == Greeted(me)
  {
  }

  lemma FieldTaken(me: nat, n: Protocol.Node, m: Message)
    requires m == BitField(1, {})
    ensures Handle(CFG, me, n, Greeted(me), m, [], []) == Offered(me, n.have).(pc := Diffing)
  {
  }

  /** A connection up to the loop of the end that accepts it and is offered nothing. */
  lemma Opens(s: System, l: Link) returns (s': System)
    requires Reachable(CFG, s) && l.self != l.peer && {l, Opposite(l)} <= s.threads.Keys
    requires l.self in s.nodes && l.peer in s.nodes && s.nodes[l.peer].have == {}
    requires s.threads[l] == NewThread(true) && s.threads[Opposite(l)] == NewThread(false)
    ensures Reachable(CFG, s') && s'.nodes == s.nodes && s'.threads.Keys == s.threads.Keys
    ensures s'.threads[Opposite(l)] == NewThread(false).(pc := Waiting, out := Greeting(l.peer, {}))
    ensures s'.threads[l] == Offered(l.self, s.nodes[l.self].have)
    ensures forall k :: k in s.threads && k != l && k != Opposite(l) ==> s'.threads[k] == s.threads[k]
  {
    hide Reachable, Handle;
    var n := s.nodes[l.self];
    s' := Move(CFG, s, Opposite(l), Begin);
    Handshaken(l.self, n, Handshake(l.peer));
    s' := Move(CFG, s', l, Receive([], []));
    FieldTaken(l.self, n, BitField(1, {}));
    s' := Move(CFG, s', l, Receive([], []));
    s' := Move(CFG, s', l, Diff);
    assert s'.threads[l].diff == {};
  }

  /** A thread of node 3 that has read that its peer has both pieces, before its loop. */
  function Wanting(): Thread {
    NewThread(false).(pc := Marking(0), out := Greeting(3, {}), taken := 2, registered := true, fieldRead := true,
                      peerLen := 1, peerField := {0, 1}, diff := {0, 1}, wanted := {0, 1})
  }

  lemma Looks(s: System, l: Link) returns (s': System)
    requires Reachable(CFG, s) && {l, Opposite(l)} <= s.threads.Keys && l.self == 3 && 3 in s.nodes
    requires s.nodes[3] == Holding({}) && s.threads[Opposite(l)].out == Greeting(l.peer, {0, 1})
    requires s.threads[l] == NewThread(false).(pc := Waiting, out := Greeting(3, {}))
    ensures Reachable(CFG, s') && s' == System(s.nodes, s.threads[l := Wanting()])
  {
    hide Reachable;
    s' := Move(CFG, s, l, Receive([], []));
    s' := Move(CFG, s', l, Receive([], []));
    s' := Move(CFG, s', l, Diff);
    assert s'.threads[l].diff == {0, 1} && s'.threads[l].out == Greeting(3, {});
    assert s'.nodes == s.nodes;
  }

  lemma Outcomes()
    ensures Earmarking.LastWon({0, 1}, {1}, 1) && !Earmarking.LastWon({0, 1}, {1}, 8)
    ensures Earmarking.LastWon({0, 1}, {0}, 8) && !Earmarking.LastWon({}, {}, 8)
  {
    assert 0 in {0, 1} - {1} && 1 in {0, 1} - {0} && 1 in {0, 1};
  }

  /** Both threads' loops: A takes bit 0, B loses it and takes bit 1, and A loses that. */
  lemma Interleave(s: System) returns (s': System)
    requires Reachable(CFG, s) && {A, A', B, B'} <= s.threads.Keys && 3 in s.nodes
    requires s.nodes[3] == Holding({}) && s.threads[A] == s.threads[B] == Wanting()
    ensures Reachable(CFG, s')
    ensures s' == System(s.nodes[3 := Holding({}).(mark := {0, 1})], s.threads
      [A := Wanting().(pc := Marking(8), diff := {0}, granted := {0})]
      [B := Wanting().(pc := Marking(8), diff := {1}, granted := {1}, last := true)])
  {
    hide Reachable, Earmarking.LastWon;
    Outcomes();
    s' := Move(CFG, s, A, Mark);
    assert s'.nodes[3].mark == {0} && s'.threads[A].granted == {0};
    var both: set<nat> := {0, 1};
    assert both - {0} == {1} && {0} + both == both;
    s' := EarmarksAll(CFG, s', B);
    s' := FinishesLoop(s');
    assert s'.threads == s.threads
      [A := Wanting().(pc := Marking(8), diff := {0}, granted := {0})]
      [B := Wanting().(pc := Marking(8), diff := {1}, granted := {1}, last := true)];
  }

  lemma FinishesLoop(s: System) returns (s': System)
    requires Reachable(CFG, s) && {A, A'} <= s.threads.Keys && 3 in s.nodes
    requires s.nodes[3] == Holding({}).(mark := {0, 1})
    requires s.threads[A] == Wanting().(pc := Marking(1), granted := {0}, last := true)
    ensures Reachable(CFG, s')
    ensures s' == System(s.nodes, s.threads[A := Wanting().(pc := Marking(8), diff := {0}, granted := {0})])
  {
    hide Reachable, Earmarking.LastWon;
    var n, t := s.nodes[3], s.threads[A];
    Outcomes();
    s' := MarksReached(CFG, s, A);
    Earmarking.MarkUptoFrame(CFG, n, t, 8);
    Earmarking.MarkLoop(n, t, 8, {0, 1}, {1});
    EarmarksMidLoop(CFG, s', A);
    assert s'.threads[A].diff == {0} && s'.threads[A].granted == {0} && s'.nodes[3].mark == {0, 1};
    assert s'.nodes == s.nodes;
  }

  /** A drops the piece it earmarked; B asks for its own. */
  lemma Decides(s: System) returns (s': System)
    requires Reachable(CFG, s) && {A, A', B, B'} <= s.threads.Keys && 3 in s.nodes
    requires s.threads[A] == Wanting().(pc := Marking(8), diff := {0}, granted := {0})
    requires s.threads[B] == Wanting().(pc := Marking(8), diff := {1}, granted := {1}, last := true)
    ensures Reachable(CFG, s') && s'.nodes == s.nodes && s'.threads.Keys == s.threads.Keys
    ensures s'.threads[A] == s.threads[A].(pc := Waiting, dropped := {0}, out := Greeting(3, {}) + [NotInterested])
    ensures s'.threads[B]
         == s.threads[B].(pc := Waiting, reqs := {1}, out := Greeting(3, {}) + [Interested, Request(1)])
    ensures forall k :: k in s.threads && k != A && k != B ==> s'.threads[k] == s.threads[k]
  {
    hide Reachable;
    assert IsOrder([0], {0}) && IsOrder([1], {1}) && {} + {0} == {0} && {} + {1} == {1};
    s' := Move(CFG, s, A, Decide([0]));
    s' := Move(CFG, s', B, Decide([1]));
    assert Requests([1]) == [Request(1)];
    assert s'.threads[B].out == Greeting(3, {}) + [Interested, Request(1)];
    assert s'.nodes == s.nodes;
  }

  /** Node 2's thread for node 3, once it has found nothing to want there. */
  function Answered(): Thread {
    Offered(2, {0, 1}).(pc := Waiting, out := Greeting(2, {0, 1}) + [NotInterested])
  }

  lemma Answers(s: System) returns (s': System)
    requires Reachable(CFG, s) && {B, B'} <= s.threads.Keys && 2 in s.nodes && s.nodes[2] == Holding({0, 1})
    requires s.threads[B'] == Offered(2, {0, 1})
    ensures Reachable(CFG, s') && s' == System(s.nodes, s.threads[B' := Answered()])
  {
    hide Reachable, Earmarking.LastWon;
    Outcomes();
    var none: set<nat> := {};
    assert none + none == none - none == none;
    s' := EarmarksAll(CFG, s, B');
    s' := Move(CFG, s', B', Decide([]));
    assert s'.nodes == s.nodes;
  }

  lemma Serves(s: System) returns (s': System)
    requires Reachable(CFG, s) && {B, B'} <= s.threads.Keys && 2 in s.nodes && s.nodes[2] == Holding({0, 1})
    requires s.threads[B].out == Greeting(3, {}) + [Interested, Request(1)] && s.threads[B'] == Answered()
    ensures Reachable(CFG, s') && 2 in s'.nodes && s'.nodes == s.nodes[2 := s'.nodes[2]]
    ensures s'.nodes[2].initial == {0, 1} && B' in s'.threads && s'.threads == s.threads[B' := s'.threads[B']]
    ensures s'.threads[B'].out == Greeting(2, {0, 1}) + [NotInterested, Piece(1, [])]
    ensures s'.threads[B'].ntimeouts == 0
  {
    hide Reachable;
    s' := Move(CFG, s, B', Receive([], []));
    s' := Move(CFG, s', B', Receive([], []));
    s' := Move(CFG, s', B', Serve([], [0]));
  }

  lemma Adds(s: System) returns (s': System)
    requires Reachable(CFG, s) && {B, B'} <= s.threads.Keys && 3 in s.nodes
    requires s.nodes[3] == Holding({}).(mark := {0, 1})
    requires s.threads[B] == Wanting().(pc := Waiting, diff := {1}, granted := {1}, last := true, reqs := {1},
                                        out := Greeting(3, {}) + [Interested, Request(1)])
    requires s.threads[B'].out == Greeting(2, {0, 1}) + [NotInterested, Piece(1, [])]
    ensures Reachable(CFG, s') && 3 in s'.nodes && s'.nodes == s.nodes[3 := s'.nodes[3]]
    ensures s'.nodes[3].have == {1} && s'.nodes[3].initial == {}
    ensures B in s'.threads && s'.threads == s.threads[B := s'.threads[B]]
    ensures var t := s'.threads[B]; Acted(t) && t.reqs == {} && t.ntimeouts == 0
  {
    hide Reachable;
    assert IsOrder([1], {1});
    s' := Move(CFG, s, B, Receive([1], []));
    s' := Move(CFG, s', B, Receive([1], [0]));
    s' := Move(CFG, s', B, Write([0]));
    s' := Move(CFG, s', B, Publish);
  }

  /** The threads other than those of the two connections are as they started. */
  ghost predicate OthersAsStarted(s: System) {
    && s.threads.Keys == Start().threads.Keys
    && forall l :: l in s.threads && l !in {A, A', B, B'} ==> s.threads[l] == Start().threads[l]
  }

  lemma OpensBoth() returns (s: System)
    ensures Reachable(CFG, s) && {A, A', B, B'} <= s.threads.Keys && OthersAsStarted(s)
    ensures s.nodes == map[1 := Holding({0, 1}), 2 := Holding({0, 1}), 3 := Holding({})]
    ensures s.threads[A] == s.threads[B] == NewThread(false).(pc := Waiting, out := Greeting(3, {}))
    ensures s.threads[A'] == Offered(1, {0, 1}) && s.threads[B'] == Offered(2, {0, 1})
  {
    hide Reachable, Wanting, Offered, MeshThreads, Greeting;
    StartReachable();
    StartNodes();
    s := Opens(Start(), A');
    s := Opens(s, B');
  }

  /** Up to both loops of node 3. */
  lemma Prepares() returns (s: System)
    ensures Reachable(CFG, s) && {A, A', B, B'} <= s.threads.Keys && OthersAsStarted(s)
    ensures s.nodes == map[1 := Holding({0, 1}), 2 := Holding({0, 1}), 3 := Holding({})]
    ensures s.threads[A] == s.threads[B] == Wanting()
    ensures s.threads[A'] == Offered(1, {0, 1}) && s.threads[B'] == Offered(2, {0, 1})
  {
    hide Reachable, Wanting, Offered, Start, Greeting;
    PlainThreads();
    s := OpensBoth();
    s := Looks(s, A);
    s := Looks(s, B);
  }

  /** From there to the end. */
  lemma Settles() returns (s: System)
    ensures Reachable(CFG, s) && {A, A', B, B'} <= s.threads.Keys && OthersAsStarted(s)
    ensures s.nodes.Keys == {1, 2, 3} && s.nodes[3].have == {1}
    ensures s.nodes[1].initial == s.nodes[2].initial == {0, 1} && s.nodes[3].initial == {}
    ensures forall l :: l in {A, A', B, B'} ==> s.threads[l].ntimeouts == 0
    ensures Acted(s.threads[A]) && Acted(s.threads[B]) && s.threads[A].reqs == s.threads[B].reqs == {}
    ensures s.threads[A].dropped == {0}
  {
    hide Reachable, Wanting, Answered, Offered, MeshThreads;
    PlainThreads();
    s := Prepares();
    s := Interleave(s);
    s := Decides(s);
    s := Answers(s);
    s := Serves(s);
    s := Adds(s);
  }

  /**
   With the earmark as written a node can settle for less than it was offered, from a start in which every node has all
   pieces or none and without a timeout anywhere: node 3 ends with nothing outstanding and without piece 0, which both
   its peers advertised and which it had earmarked.
   */
  lemma SettledIncomplete() returns (s: System)
    ensures CFG.earmark.LastOutcome? && Reachable(CFG, s) && 3 in s.nodes && Settled(s, 3)
    ensures Dropped(s, 3, 0) && Advertised(s, 3, 0) && 0 !in s.nodes[3].have
    ensures forall i :: i in s.nodes ==> s.nodes[i].initial == {} || s.nodes[i].initial == CFG.views.Keys
    ensures forall l :: l in s.threads ==> s.threads[l].ntimeouts == 0
  {
    hide Reachable, Advertised, MeshThreads;
    StartReachable();
    StartNodes();
    s := Settles();
    assert 0 in s.threads[A].dropped;
    MissingIffDropped(CFG, s, 3, 0);
  }

  lemma StartNodes()
    ensures Start().nodes == map[1 := Holding({0, 1}), 2 := Holding({0, 1}), 3 := Holding({})]
    ensures CFG.views.Keys == {0, 1}
  {
  }

  lemma PlainThreads()
    ensures Wanting().ntimeouts == Answered().ntimeouts == 0 && Wanting().fieldRead && Wanting().reqs == {}
    ensures forall me, have :: Offered(me, have).ntimeouts == 0 && Offered(me, have).out == Greeting(me, have)
  {
  }

  // ----- a node that is never served -----

  /** In a mesh of two nodes, 2 has the whole file and dials 1, which has nothing. */
  const D := Link(1, 2)
  const D' := Link(2, 1)

  ghost function PairStart(): System {
    System(map[1 := Holding({}), 2 := Holding({0, 1})], MeshThreads([1, 2]))
  }

  lemma PairReachable()
    ensures Reachable(CFG, PairStart()) && PairStart().threads.Keys == {D, D'}
    ensures PairStart().threads[D] == NewThread(true) && PairStart().threads[D'] == NewThread(false)
    ensures PairStart().nodes == map[1 := Holding({}), 2 := Holding({0, 1})] && CFG.views.Keys == {0, 1}
  {
    hide NewNode, ConnectionAt, MeshThreads, Reachable;
    HoldingIsNew({});
    HoldingIsNew({0, 1});
    MeshIsInitialIff(CFG, [1, 2], PairStart().nodes);
    InitReachable(CFG, PairStart());
    PairRoles();
  }

  lemma PairRoles()
    ensures var ts := MeshThreads([1, 2]);
      ts.Keys == {D, D'} && ts[D] == NewThread(true) && ts[D'] == NewThread(false)
  {
    hide ConnectionAt;
    var ids: seq<nat> := [1, 2];
    RoleAt(ids, 0, 1);
    RoleAt(ids, 1, 0);
    assert 1 in ids && 2 in ids;
  }

  /** Node 1's thread once it has earmarked both pieces. */
  function Hungry(): Thread {
    NewThread(true).(out := Greeting(1, {}) + [Interested], taken := 2, registered := true, fieldRead := true,
                     peerLen := 1, peerField := {0, 1}, diff := {0, 1}, wanted := {0, 1}, last := true,
                     granted := {0, 1}, reqs := {0, 1})
  }

  lemma HungryOpens(s: System) returns (s': System)
    requires Reachable(CFG, s) && s.threads.Keys == {D, D'} && 1 in s.nodes && 2 in s.nodes
    requires s.nodes[1] == Holding({}) && s.nodes[2] == Holding({0, 1})
    requires s.threads[D] == NewThread(true) && s.threads[D'] == NewThread(false)
    ensures Reachable(CFG, s') && s'.nodes == s.nodes && s'.threads.Keys == {D, D'}
    ensures s'.threads[D]
         == Hungry().(pc := Marking(0), out := Greeting(1, {}), last := false, granted := {}, reqs := {})
    ensures s'.threads[D'] == NewThread(false).(pc := Waiting, out := Greeting(2, {0, 1}))
  {
    hide Reachable;
    s' := Move(CFG, s, D', Begin);
    s' := Move(CFG, s', D, Receive([], []));
    s' := Move(CFG, s', D, Receive([], []));
    s' := Move(CFG, s', D, Diff);
    assert s'.threads[D].diff == {0, 1} && s'.threads[D].out == Greeting(1, {});
  }

  lemma HungryDecides(s: System) returns (s': System)
    requires Reachable(CFG, s) && s.threads.Keys == {D, D'} && 1 in s.nodes && s.nodes[1] == Holding({})
    requires s.threads[D]
          == Hungry().(pc := Marking(0), out := Greeting(1, {}), last := false, granted := {}, reqs := {})
    ensures Reachable(CFG, s')
    ensures s' == System(s.nodes[1 := Holding({}).(mark := {0, 1})], s.threads[D := Hungry()])
  {
    hide Reachable, Earmarking.LastWon;
    AllWon();
    var none: set<nat> := {};
    assert none + {0, 1} == {0, 1} && {0, 1} - none == {0, 1};
    s' := EarmarksAll(CFG, s, D);
    assert IsOrder([0, 1], {0, 1});
    s' := Move(CFG, s', D, Decide([0, 1]));
    assert s'.threads[D].out == Greeting(1, {}) + [Interested];
  }

  lemma AllWon()
    ensures Earmarking.LastWon({0, 1}, {}, 8) && !Earmarking.LastWon({}, {}, 8)
  {
    var none: set<nat> := {};
    assert 1 in {0, 1} - none;
  }

  /** Node 2's thread before earmark's loop, with nothing to look for. */
  function Idle(): Thread {
    NewThread(false).(pc := Marking(0), out := Greeting(2, {0, 1}), taken := 2, registered := true, fieldRead := true,
                      peerLen := 1)
  }

  lemma SeedLooks(s: System) returns (s': System)
    requires Reachable(CFG, s) && s.threads.Keys == {D, D'} && 2 in s.nodes && s.nodes[2] == Holding({0, 1})
    requires s.threads[D].out == Greeting(1, {}) + [Interested]
    requires s.threads[D'] == NewThread(false).(pc := Waiting, out := Greeting(2, {0, 1}))
    ensures Reachable(CFG, s') && s' == System(s.nodes, s.threads[D' := Idle()])
  {
    hide Reachable;
    s' := Move(CFG, s, D', Receive([], []));
    s' := Move(CFG, s', D', Receive([], []));
    s' := Move(CFG, s', D', Diff);
    assert s'.threads[D'].diff == {} && s'.threads[D'].out == Greeting(2, {0, 1});
    assert s'.nodes == s.nodes;
  }

  lemma SeedDecides(s: System) returns (s': System)
    requires Reachable(CFG, s) && s.threads.Keys == {D, D'} && 2 in s.nodes && s.nodes[2] == Holding({0, 1})
    requires s.threads[D'] == Idle()
    ensures Reachable(CFG, s')
    ensures s' == System(s.nodes,
                         s.threads[D' := Idle().(pc := Waiting, out := Greeting(2, {0, 1}) + [NotInterested])])
  {
    hide Reachable, Earmarking.LastWon;
    AllWon();
    var none: set<nat> := {};
    assert none + none == none - none == none;
    s' := EarmarksAll(CFG, s, D');
    s' := Move(CFG, s', D', Decide([]));
    assert s'.nodes == s.nodes;
  }

  lemma NobodyAsks()
    ensures !AsksAny(Hungry().out) && !AsksAny(Greeting(2, {0, 1}) + [NotInterested])
  {
  }

  /**
   A node without the file that only accepts a connection from one that has it earmarks everything and is never served,
   as no thread survives a timeout in the code as written: nothing but a timeout makes the accepting end ask.
   */
  lemma NeverServed() returns (s: System)
    ensures Reachable(CFG, s) && 1 in s.nodes && Underway(s, D) && s.threads[D].reqs == CFG.views.Keys
    ensures forall i :: i in s.nodes ==> s.nodes[i].initial == {} || s.nodes[i].initial == CFG.views.Keys
    ensures forall l :: l in s.threads ==> s.threads[l].ntimeouts == 0
    ensures forall s' :: Leads(CFG, false, s, s') ==> !Settled(s', 1)
  {
    hide Reachable, Leads, PairStart, AsksAny, Greeting;
    PairReachable();
    NobodyAsks();
    s := HungryOpens(PairStart());
    s := HungryDecides(s);
    s := SeedLooks(s);
    s := SeedDecides(s);
    assert Underway(s, D) && Starving(s, D, false);
    SettlesIff(CFG, false, s, 1);
  }
}
