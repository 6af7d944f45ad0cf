/** How the nodes of the configuration connect to one another, and the sizes a node derives from it. */
module Mesh {
  import opened BitfieldModel
  import opened CacheModel
  import opened CStrings
  import opened Protocol
  import opened Steps

  /** A handler thread as a node starts it: towards a peer it dialled, or for an accepted connection. */
  datatype Conn = Dialled(peerid: nat) | Accepted

  /** The peer id the handler is given; 0 stands for an accepted connection. */
  function PeerArgument(c: Conn): nat {
    match c
    case Dialled(id) => id
    case Accepted => 0
  }

  /** The handler's `client`: it takes itself to be the accepting side. */
  predicate TakesItselfAccepting(c: Conn) {
    PeerArgument(c) == 0
  }

  /** Where a node finds its own id in the list; the list's length if it is not there. */
  function Position(ids: seq<nat>, me: nat): (k: nat)
    ensures k <= |ids| && (forall j :: 0 <= j < k ==> ids[j] != me) && (k < |ids| ==> ids[k] == me)
  {
    if ids == [] || ids[0] == me then 0 else
      var k := Position(ids[1..], me);
      assert forall j :: 1 <= j < k + 1 ==> ids[j] == ids[1..][j - 1];
      k + 1
  }

  /** The connections made to those of `ids` that answer. */
  function Dials(ids: seq<nat>, reachable: set<nat>): seq<Conn> {
    if ids == [] then [] else
      var n := |ids| - 1;
      Dials(ids[..n], reachable) + if ids[n] in reachable then [Dialled(ids[n])] else []
  }

  lemma {:induction false} DialsAre(ids: seq<nat>, reachable: set<nat>, c: Conn)
    ensures c in Dials(ids, reachable) <==> c.Dialled? && c.peerid in ids && c.peerid in reachable
  {
    if ids != [] {
      var n := |ids| - 1;
      assert ids == ids[..n] + [ids[n]];
      DialsAre(ids[..n], reachable, c);
    }
  }

  lemma NoDials(reachable: set<nat>)
    ensures Dials([], reachable) == []
  {
  }

  lemma DialsNext(ids: seq<nat>, reachable: set<nat>, i: nat)
    requires i < |ids|
    ensures Dials(ids[..i + 1], reachable)
         == Dials(ids[..i], reachable) + if ids[i] in reachable then [Dialled(ids[i])] else []
  {
    assert ids[..i + 1][..i] == ids[..i];
  }

  /** What the node `me` connects: it dials each node before it that answers, then accepts one for each node after. */
  function Connections(ids: seq<nat>, me: nat, reachable: set<nat>): seq<Conn> {
    var k := Position(ids, me);
    Dials(ids[..k], reachable) + seq(if k + 1 < |ids| then |ids| - (k + 1) else 0, _ => Accepted)
  }

  lemma {:induction false} DialCount(ids: seq<nat>, reachable: set<nat>, id: nat)
    ensures multiset(Dials(ids, reachable))[Dialled(id)] == if id in reachable then multiset(ids)[id] else 0
    ensures multiset(Dials(ids, reachable))[Accepted] == 0
  {
    if ids != [] {
      var n := |ids| - 1;
      assert ids == ids[..n] + [ids[n]];
      DialCount(ids[..n], reachable, id);
    }
  }

  lemma {:induction false} AcceptCount(n: nat, c: Conn)
    ensures multiset(seq(n, _ => Accepted))[c] == if c == Accepted then n else 0
  {
    if n > 0 {
      AcceptCount(n - 1, c);
      assert seq(n, _ => Accepted) == seq(n - 1, _ => Accepted) + [Accepted];
    }
  }

  /**
   Whichever dials are answered, a node accepts one connection for each node listed after it, none if it is not listed
   itself, and has as many connections to an answering node as that is listed before it.
   */
  lemma ConnectionCounts(ids: seq<nat>, me: nat, reachable: set<nat>, id: nat)
    ensures var cs := multiset(Connections(ids, me, reachable));
      && cs[Accepted] == (if me in ids then |ids| - 1 - Position(ids, me) else 0)
      && cs[Dialled(id)] == if id in reachable then multiset(ids[..Position(ids, me)])[id] else 0
  {
    var k := Position(ids, me);
    var n := if k + 1 < |ids| then |ids| - (k + 1) else 0;
    DialCount(ids[..k], reachable, id);
    AcceptCount(n, Accepted);
    AcceptCount(n, Dialled(id));
    assert me in ids <==> k < |ids|;
  }

  class Node {
    const peerid: nat
    var threads: seq<Conn>

    /** The constructor dials, then accepts, waiting for exactly one connection for each node listed after it. */
    constructor (peerid: nat, ids: seq<nat>, reachable: set<nat>)
      ensures this.peerid == peerid && threads == Connections(ids, peerid, reachable)
      ensures multiset(threads)[Accepted] == if peerid in ids then |ids| - 1 - Position(ids, peerid) else 0
    {
      this.peerid, threads := peerid, [];
      new;
      hide Dials;
      var conns := ConnBack(ids, reachable);
      AcceptLoop(conns, |ids|);
      assert threads == Connections(ids, peerid, reachable);
      hide Connections;
      ConnectionCounts(ids, peerid, reachable, peerid);
    }

    /** `connback`: dial everyone listed before oneself; the result counts them and oneself. */
    method ConnBack(ids: seq<nat>, reachable: set<nat>) returns (conns: nat)
      modifies this
      ensures threads == old(threads) + Dials(ids[..Position(ids, peerid)], reachable)
      ensures conns == Position(ids, peerid) + 1
    {
      hide Dials;
      NoDials(reachable);
      var i := 0;
      assert ids[..0] == [];
      while i < |ids|
        invariant 0 <= i <= |ids| && forall j :: 0 <= j < i ==> ids[j] != peerid
        invariant threads == old(threads) + Dials(ids[..i], reachable)
      {
        if peerid == ids[i] {
          break;
        }
        DialsNext(ids, reachable, i);
        if ids[i] in reachable {
          threads := threads + [Dialled(ids[i])];
        }
        i := i + 1;
      }
      FirstPosition(ids, peerid, i);
      conns := i + 1;
    }

    /** `acceptloop`: accept one connection for everyone not yet counted. */
    method AcceptLoop(clients: nat, size: nat)
      modifies this
      ensures threads == old(threads) + seq(if clients < size then size - clients else 0, _ => Accepted)
    {
      var i := clients;
      while i < size
        invariant clients <= i && (clients <= size ==> i <= size) && (clients > size ==> i == clients)
        invariant threads == old(threads) + seq(i - clients, _ => Accepted)
      {
        threads := threads + [Accepted];
        i := i + 1;
      }
    }
  }

  lemma FirstPosition(ids: seq<nat>, me: nat, i: nat)
    requires i <= |ids| && (forall j :: 0 <= j < i ==> ids[j] != me) && (i < |ids| ==> ids[i] == me)
    ensures Position(ids, me) == i
  {
    var k := Position(ids, me);
    assert k < |ids| ==> !(k < i);
    assert i < |ids| ==> !(i < k);
  }

  ghost predicate Distinct(ids: seq<nat>) {
    forall i, j :: 0 <= i < j < |ids| ==> ids[i] != ids[j]
  }

  lemma PositionOf(ids: seq<nat>, k: nat)
    requires Distinct(ids) && k < |ids|
    ensures Position(ids, ids[k]) == k
  {
    FirstPosition(ids, ids[k], k);
  }

  lemma {:induction false} DialsAll(ids: seq<nat>, reachable: set<nat>)
    requires forall id :: id in ids ==> id in reachable
    ensures |Dials(ids, reachable)| == |ids|
    ensures forall i :: 0 <= i < |ids| ==> Dials(ids, reachable)[i] == Dialled(ids[i])
  {
    if ids != [] {
      var n := |ids| - 1;
      forall id | id in ids[..n] ensures id in reachable {
        assert id in ids;
      }
      DialsAll(ids[..n], reachable);
      assert ids[n] in reachable;
      var before := Dials(ids[..n], reachable);
      assert Dials(ids, reachable) == before + [Dialled(ids[n])];
      assert forall i :: 0 <= i < n ==> before[i] == Dialled(ids[i]);
    }
  }

  /** The connections of node `b` when every dial is answered. */
  function AllAnswered(ids: seq<nat>, b: nat): seq<Conn>
    requires b < |ids|
  {
    Connections(ids, ids[b], set id | id in ids)
  }

  /** The nodes that dial node `a`. */
  ghost function Diallers(ids: seq<nat>, a: nat): set<nat>
    requires a < |ids|
  {
    set c: nat | c < |ids| && Dialled(ids[a]) in AllAnswered(ids, c)
  }

  lemma AnsweredIs(ids: seq<nat>, b: nat)
    requires Distinct(ids) && b < |ids|
    ensures |AllAnswered(ids, b)| == |ids| - 1
    ensures forall i :: 0 <= i < |ids| - 1 ==> AllAnswered(ids, b)[i] == if i < b then Dialled(ids[i]) else Accepted
  {
    PositionOf(ids, b);
    DialsAll(ids[..b], set id | id in ids);
  }

  lemma {:induction false} CountOf<T>(s: seq<T>, x: T, lo: nat, hi: nat)
    requires lo <= hi <= |s| && forall i :: 0 <= i < |s| ==> (s[i] == x <==> lo <= i < hi)
    ensures multiset(s)[x] == hi - lo
  {
    if s != [] {
      var n := |s| - 1;
      assert s == s[..n] + [s[n]];
      CountOf(s[..n], x, if lo <= n then lo else n, if hi <= n then hi else n);
    }
  }

  /**
   With distinct ids and every dial answered, each unordered pair of nodes is dialled exactly once (the later one in
   the list dials), and every node accepts as many connections as there are nodes that dial it.
   */
  lemma FullMesh(ids: seq<nat>, a: nat, b: nat)
    requires Distinct(ids) && a < |ids| && b < |ids|
    ensures multiset(AllAnswered(ids, b))[Dialled(ids[a])] == if a < b then 1 else 0
    ensures multiset(AllAnswered(ids, a))[Accepted] == |Diallers(ids, a)|
  {
    hide AllAnswered, Diallers;
    DialledOnce(ids, a, b);
    AcceptsDials(ids, a);
  }

  lemma DialledOnce(ids: seq<nat>, a: nat, b: nat)
    requires Distinct(ids) && a < |ids| && b < |ids|
    ensures multiset(AllAnswered(ids, b))[Dialled(ids[a])] == if a < b then 1 else 0
  {
    AnsweredIs(ids, b);
    hide AllAnswered;
    CountOf(AllAnswered(ids, b), Dialled(ids[a]), if a < b then a else 0, if a < b then a + 1 else 0);
  }

  lemma AcceptsDials(ids: seq<nat>, a: nat)
    requires Distinct(ids) && a < |ids|
    ensures multiset(AllAnswered(ids, a))[Accepted] == |Diallers(ids, a)|
  {
    AnsweredIs(ids, a);
    DiallersAre(ids, a);
    RangeSize(a + 1, |ids|);
    hide AllAnswered, Diallers, Range;
    CountOf(AllAnswered(ids, a), Accepted, a, |ids| - 1);
  }

  lemma DiallersAre(ids: seq<nat>, a: nat)
    requires Distinct(ids) && a < |ids|
    ensures Diallers(ids, a) == Range(a + 1, |ids|)
  {
    hide AllAnswered, Range;
    forall c: nat | c < |ids| ensures Dialled(ids[a]) in AllAnswered(ids, c) <==> a < c {
      DialsEarlier(ids, c, a);
    }
  }

  lemma DialsEarlier(ids: seq<nat>, b: nat, a: nat)
    requires Distinct(ids) && a < |ids| && b < |ids|
    ensures Dialled(ids[a]) in AllAnswered(ids, b) <==> a < b
  {
    AnsweredIs(ids, b);
    if a < b {
      assert AllAnswered(ids, b)[a] == Dialled(ids[a]);
    }
  }

  function Range(lo: nat, hi: nat): (s: set<nat>)
    ensures forall k: nat :: k in s <==> lo <= k < hi
    decreases hi - lo
  {
    if lo >= hi then {} else {lo} + Range(lo + 1, hi)
  }

  lemma {:induction false} RangeSize(lo: nat, hi: nat)
    requires lo <= hi
    ensures |Range(lo, hi)| == hi - lo
    decreases hi - lo
  {
    if lo < hi {
      RangeSize(lo + 1, hi);
    }
  }

  /** The connection at the end of a link: the one its node dialled to the peer, if it did, else an accepted one. */
  function ConnectionAt(ids: seq<nat>, l: Link): Conn
    requires l.self in ids
  {
    if Dialled(l.peer) in Connections(ids, l.self, set id | id in ids) then Dialled(l.peer) else Accepted
  }

  /** The handler threads of a full mesh, each in the role its node gives it. */
  ghost function MeshThreads(ids: seq<nat>): map<Link, Thread> {
    var ends := set a, b | a in ids && b in ids && a != b :: Link(a, b);
    map l | l in ends :: NewThread(TakesItselfAccepting(ConnectionAt(ids, l)))
  }

  /** Some node dials the id 0. */
  predicate ZeroDialled(ids: seq<nat>) {
    exists a :: 0 <= a < |ids| - 1 && ids[a] == 0
  }

  lemma RoleAt(ids: seq<nat>, a: nat, b: nat)
    requires Distinct(ids) && a < |ids| && b < |ids| && a != b
    ensures TakesItselfAccepting(ConnectionAt(ids, Link(ids[a], ids[b]))) <==> a < b || ids[b] == 0
  {
    hide Connections;
    DialsEarlier(ids, a, b);
  }

  /**
   A full mesh of nodes that hold what they say they hold is a system the protocol starts from exactly when nobody
   dials the id 0, by which a handler recognizes an accepted connection.
   */
  lemma MeshIsInitialIff(cfg: Config, ids: seq<nat>, nodes: map<nat, Protocol.Node>)
    requires Distinct(ids) && ValidConfig(cfg) && (forall id :: id in ids ==> id in nodes)
    requires forall i :: i in nodes ==> NewNode(cfg, nodes[i])
    ensures Init(cfg, System(nodes, MeshThreads(ids))) <==> !ZeroDialled(ids)
  {
    hide NewNode, ValidConfig, ConnectionAt;
    var s := System(nodes, MeshThreads(ids));
    if a :| 0 <= a < |ids| - 1 && ids[a] == 0 {
      RoleAt(ids, a + 1, a);
      RoleAt(ids, a, a + 1);
      assert Link(ids[a], ids[a + 1]) in s.threads && Opposite(Link(ids[a], ids[a + 1])) in s.threads;
    } else {
      forall l {:trigger Opposite(l)} | l in s.threads
        ensures Opposite(l) in s.threads && s.threads[l].accepting != s.threads[Opposite(l)].accepting
      {
        var a :| 0 <= a < |ids| && ids[a] == l.self;
        var b :| 0 <= b < |ids| && ids[b] == l.peer;
        RoleAt(ids, a, b);
        RoleAt(ids, b, a);
      }
    }
  }

  /** An end of a connection that has neither sent nor taken anything, and either waits or has crashed. */
  predicate Silent(t: Thread) {
    && t.accepting && (t.pc == Waiting || t.pc == Crashed) && t.out == [] && t.taken == 0
    && !t.registered && t.reqs == {} && t.peerField == {}
  }

  /**
   When id 0 is dialled both ends take themselves to accept: in every run the connection between them carries
   nothing, and an end that leaves its loop crashes.
   */
  lemma {:induction false} BothAcceptingStaySilent(cfg: Config, run: seq<System>, l: Link, at: nat)
    requires at < |run| && forall i :: 0 <= i < |run| - 1 ==> Step(cfg, run[i], run[i + 1])
    requires l in run[0].threads && Opposite(l) in run[0].threads
    requires run[0].threads[l] == run[0].threads[Opposite(l)] == NewThread(true)
    ensures l in run[at].threads && Silent(run[at].threads[l])
    ensures Opposite(l) in run[at].threads && Silent(run[at].threads[Opposite(l)])
  {
    hide Enabled, Local, Silent;
    if at == 0 {
      SilentStart();
    } else {
      BothAcceptingStaySilent(cfg, run, l, at - 1);
      assert Step(cfg, run[at - 1], run[at - 1 + 1]);
      var k, e :| StepOf(cfg, run[at - 1], run[at], k, e);
      if k == l || k == Opposite(l) {
        assert Opposite(Opposite(l)) == l;
        var s := run[at - 1];
        SilentStep(cfg, k.self, s.nodes[k.self], s.threads[k], s.threads[Opposite(k)], e);
      }
    }
  }

  lemma SilentStart()
    ensures Silent(NewThread(true))
  {
  }

  lemma SilentStep(cfg: Config, me: nat, n: Protocol.Node, t: Thread, f: Thread, e: Event)
    requires Silent(t) && Silent(f) && 0 < cfg.maxsz && Enabled(cfg, n, t, f.out, e)
    ensures Silent(Local(cfg, me, n, t, f.out, e).1)
  {
    hide Haves, Put, Get, Served, Strncpy, MarkBit, Act, Handle;
    NoFieldNoHaves(n.store.index.cmap, 0, 8 * t.peerLen);
    if e.Timeout? {
      NoKeysNoOrder(e.order, t.reqs);
    }
  }

  /** A store's field takes the fewest bytes that have a bit for every piece, and the earmark field has as many. */
  lemma EarmarkFieldCovers(npcs: nat, k: nat)
    ensures NumBytes(npcs) <= k <==> npcs <= 8 * k
    ensures NumBytes(npcs) <= npcs
  {
  }
}
