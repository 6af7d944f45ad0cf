/** Every kind of step, taken by a thread in a system that satisfies the invariant, is in order. */
module Steps {
  import opened CStrings
  import opened CacheModel
  import opened Protocol
  import opened Invariants

  /** What the invariant says at one connection: thread `t` of node `n`, thread `f` of node `np` at the other end. */
  ghost predicate Here(cfg: Config, n: Node, t: Thread, f: Thread, np: Node) {
    && ValidConfig(cfg) && t.accepting != f.accepting
    && NodeOk(cfg, n) && NodeOk(cfg, np)
    && ThreadOk(cfg, t, f, n, np) && ThreadOk(cfg, f, t, np, n)
  }

  /** Neither a handshake nor a bit field. */
  predicate Plain(m: Message) {
    !m.Handshake? && !m.BitField?
  }

  lemma RegisteredHasSent(t: Thread, f: Thread)
    requires Session(t, f)
    ensures t.fieldRead ==> t.registered
    ensures t.registered ==> t.out != []
  {
  }

  /** Sending plain messages keeps the session order. */
  lemma SendKeepsSession(t: Thread, t': Thread, f: Thread, ms: seq<Message>)
    requires Session(t, f) && t'.out == t.out + ms
    requires forall m :: m in ms ==> Plain(m)
    requires ms != [] ==> t.out != []
    requires t'.taken == t.taken && t'.registered == t.registered && t'.fieldRead == t.fieldRead
    requires t'.peerField == t.peerField
    requires t'.accepting == t.accepting && t.pc != Starting && t'.pc != Starting
    ensures Session(t', f)
  {
    forall k | 0 <= k < |t'.out|
      ensures k < |t.out| ==> t'.out[k] == t.out[k]
      ensures k >= |t.out| ==> Plain(t'.out[k])
    {
      if k >= |t.out| {
        assert t'.out[k] == ms[k - |t.out|];
      }
    }
    if FieldIn(t.out, |t.out|) {
      var k :| 0 <= k < |t.out| && t.out[k].BitField?;
      assert t'.out[k].BitField?;
    }
  }

  /** Taking a plain message keeps the session order. */
  lemma TakeKeepsSession(t: Thread, t': Thread, f: Thread)
    requires Session(t, f) && HandshakeFirst(f.out) && t.taken < |f.out| && Plain(f.out[t.taken])
    requires t'.taken == t.taken + 1 && t'.out == t.out
    requires t'.registered == t.registered && t'.fieldRead == t.fieldRead && t'.peerField == t.peerField
    requires t'.accepting == t.accepting && t.pc != Starting && t'.pc != Starting
    ensures Session(t', f) && t.registered
  {
    assert t.taken != 0;
  }

  /** Sending messages that are sound keeps the log sound. */
  lemma SendKeepsLog(cfg: Config, t: Thread, t': Thread, f: Thread, n: Node, ms: seq<Message>)
    requires Log(cfg, t, f, n) && t'.out == t.out + ms && (forall p :: Wants(t, p) ==> Wants(t', p))
    requires t.peerField <= t'.peerField
    requires forall m :: m in ms ==> Sound(cfg, m, t', f, n)
    ensures Log(cfg, t', f, n)
  {
    forall m | m in t'.out ensures Sound(cfg, m, t', f, n) {
      if m in t.out {
        assert Sound(cfg, m, t, f, n);
      }
    }
  }

  lemma InitialHeld(cfg: Config, n: Node)
    requires NodeOk(cfg, n)
    ensures n.initial <= n.have
  {
    hide Coherent, Good;
  }

  /** The fields `Claims` speaks of are the same. */
  ghost predicate SamePieces(t: Thread, t': Thread) {
    && t'.fieldRead == t.fieldRead && t'.peerField == t.peerField && t'.diff == t.diff
    && t'.reqs == t.reqs && t'.granted == t.granted && t'.got == t.got && t'.dropped == t.dropped
    && t'.wanted == t.wanted
  }

  /** What became of the wanted pieces does not change once the thread has acted on the peer's field. */
  lemma SameOutcome(cfg: Config, t: Thread, t': Thread, n: Node)
    requires Outcome(cfg, t, n) && t'.fieldRead == t.fieldRead && t'.peerField == t.peerField
    requires t'.wanted == t.wanted && t'.granted == t.granted && t'.dropped == t.dropped
    requires !t.pc.Marking? && !t.pc.Diffing? && !t'.pc.Marking? && !t'.pc.Diffing?
    ensures Outcome(cfg, t', n)
  {
  }

  lemma SamePiecesSameClaims(cfg: Config, t: Thread, t': Thread, n: Node, np: Node)
    requires Claims(t, n, np) && Outcome(cfg, t, n) && SamePieces(t, t')
    requires !t.pc.Marking? && !t.pc.Diffing? && !t'.pc.Marking? && !t'.pc.Diffing?
    ensures Claims(t', n, np) && Outcome(cfg, t', n)
  {
    SameOutcome(cfg, t, t', n);
    hide Outcome;
    assert Earmarks(t', n, np);
    assert t.fieldRead ==> Chosen(t, n) && Chosen(t', n);
  }

  /** A step that leaves the node and the thread's earmarks alone is in order if the thread stays in order. */
  lemma QuietStep(cfg: Config, n: Node, t: Thread, t': Thread, f: Thread, np: Node)
    requires NodeOk(cfg, n) && !t.pc.Flipping? && Claims(t, n, np)
    requires ThreadGrows(t, t') && t'.granted == t.granted && t'.got == t.got
    requires ThreadOk(cfg, t', f, n, np)
    ensures StepOk(cfg, n, t, n, t', f, np)
  {
    hide Coherent, Good, Session, Claims, Outcome, Log, Busy;
  }

  /** The fields `Session` speaks of, `out` and `pc` apart, are the same. */
  ghost predicate SameSession(t: Thread, t': Thread) {
    && t'.accepting == t.accepting && t'.taken == t.taken && t'.registered == t.registered
    && t'.fieldRead == t.fieldRead && t'.chokedNode == t.chokedNode && t'.nbrChoked == t.nbrChoked
  }

  /** A thread that is waiting or serving may send sound plain messages once registered, and may then leave the loop. */
  lemma SendOnlyStep(cfg: Config, n: Node, t: Thread, t': Thread, f: Thread, np: Node, ms: seq<Message>)
    requires Here(cfg, n, t, f, np) && (t.pc == Waiting || t.pc.Serving?)
    requires SamePieces(t, t') && SameSession(t, t') && t'.out == t.out + ms
    requires t'.pc == Waiting || t'.pc == Exit(t').pc
    requires forall m :: m in ms ==> Plain(m) && Sound(cfg, m, t', f, n)
    requires ms != [] ==> t.registered
    ensures StepOk(cfg, n, t, n, t', f, np)
  {
    hide Coherent, Good, NodeOk, Claims, Outcome, Log, Session, Sound;
    RegisteredHasSent(t, f);
    SamePiecesSameClaims(cfg, t, t', n, np);
    SendKeepsSession(t, t', f, ms);
    SendKeepsLog(cfg, t, t', f, n, ms);
    QuietStep(cfg, n, t, t', f, np);
  }

  /** The requests a thread sends are for pieces it wants. */
  lemma RequestsSound(cfg: Config, t: Thread, f: Thread, n: Node, order: seq<nat>)
    requires IsOrder(order, t.reqs)
    ensures forall m :: m in Requests(order) ==> Plain(m) && Sound(cfg, m, t, f, n)
    ensures Requests(order) != [] ==> t.reqs != {}
  {
    forall m | m in Requests(order) ensures m.Request? && m.pcno in t.reqs {
      var i :| 0 <= i < |order| && m == Request(order[i]);
      assert order[i] in order;
    }
    if order != [] {
      assert order[0] in order;
    }
  }

  lemma NoKeysNoOrder(order: seq<nat>, keys: set<nat>)
    requires IsOrder(order, keys)
    ensures order != [] ==> keys != {}
  {
    if order != [] {
      assert order[0] in order;
    }
  }

  /** Every piece a thread wants is one its peer has; it wants none before it has read the peer's field. */
  lemma WantsWhatPeerHas(t: Thread, n: Node, np: Node)
    requires Claims(t, n, np)
    ensures forall p :: Wants(t, p) ==> p in t.granted && p in np.have
    ensures t.reqs != {} || t.peerField != {} ==> t.fieldRead
  {
    if t.reqs != {} {
      var p :| p in t.reqs;
      assert p in t.granted;
    }
  }

  // ----- steps other than receiving a message -----

  lemma BeginOk(cfg: Config, me: nat, n: Node, t: Thread, f: Thread, np: Node)
    requires Here(cfg, n, t, f, np) && t.pc == Starting
    ensures var (n', t') := Local(cfg, me, n, t, f.out, Begin); StepOk(cfg, n, t, n', t', f, np)
  {
    hide Coherent, Good, NodeOk, Claims, Outcome, Log;
    var ms := [Handshake(me), BitField(cfg.len, n.have)];
    var t' := Send(t.(pc := Waiting), ms);
    assert t'.out == ms;
    InitialHeld(cfg, n);
    SamePiecesSameClaims(cfg, t, t', n, np);
    SendKeepsLog(cfg, t, t', f, n, ms);
    QuietStep(cfg, n, t, t', f, np);
  }

  lemma DiffOk(cfg: Config, me: nat, n: Node, t: Thread, f: Thread, np: Node)
    requires Here(cfg, n, t, f, np) && t.pc == Diffing
    ensures var (n', t') := Local(cfg, me, n, t, f.out, Diff); StepOk(cfg, n, t, n', t', f, np)
  {
    hide Coherent, Good, NodeOk, Claims, Outcome, Log, Session;
    var (n', t') := Local(cfg, me, n, t, f.out, Diff);
    DiffClaims(cfg, n, t, t', np);
    DiffOutcome(cfg, n, t, t', np);
    SendKeepsSession(t, t', f, []);
    SendKeepsLog(cfg, t, t', f, n, []);
    QuietStep(cfg, n, t, t', f, np);
  }

  lemma DiffClaims(cfg: Config, n: Node, t: Thread, t': Thread, np: Node)
    requires ValidConfig(cfg) && NodeOk(cfg, n) && NodeOk(cfg, np) && Claims(t, n, np) && t.pc.Diffing?
    requires var diff := set p | p in t.peerField && p !in n.have && p < 8 * cfg.len;
      t' == t.(pc := Marking(0), last := false, diff := diff, wanted := diff)
    ensures Claims(t', n, np)
  {
    hide Coherent, Good;
    assert forall p :: p in t.peerField ==> p in cfg.views && p < 8 * cfg.len;
  }

  lemma DiffOutcome(cfg: Config, n: Node, t: Thread, t': Thread, np: Node)
    requires ValidConfig(cfg) && NodeOk(cfg, n) && NodeOk(cfg, np) && Claims(t, n, np) && t.pc.Diffing?
    requires var diff := set p | p in t.peerField && p !in n.have && p < 8 * cfg.len;
      t' == t.(pc := Marking(0), last := false, diff := diff, wanted := diff)
    ensures Outcome(cfg, t', n)
  {
    hide Coherent, Good;
    assert forall p :: p in t.peerField ==> p in np.have && p in cfg.views && p < 8 * cfg.len;
  }

  lemma MarkOk(cfg: Config, me: nat, n: Node, t: Thread, f: Thread, np: Node)
    requires Here(cfg, n, t, f, np) && t.pc.Marking? && t.pc.next < 8 * cfg.len
    ensures var (n', t') := Local(cfg, me, n, t, f.out, Mark); StepOk(cfg, n, t, n', t', f, np)
  {
    hide Coherent, Good, NodeOk, Claims, Outcome, Log, Session, MarkBit, Sound;
    var (n', t') := MarkBit(n, t, t.pc.next);
    MarkSilent(cfg, n, t);
    SendKeepsSession(t, t', f, []);
    SendKeepsLog(cfg, t, t', f, n, []);
    LogAcross(cfg, t', f, f, n, n');
    MarkClaims(cfg, n, t, np);
    MarkOutcome(cfg, n, t, np);
  }

  /** All a round of the loop leaves alone. */
  lemma MarkSilent(cfg: Config, n: Node, t: Thread)
    requires t.pc.Marking?
    ensures var (n', t') := MarkBit(n, t, t.pc.next);
      && t' == t.(pc := t'.pc, last := t'.last, diff := t'.diff, granted := t'.granted)
      && t'.pc == Marking(t.pc.next + 1) && t.granted <= t'.granted
      && n' == n.(mark := n'.mark) && NodeGrows(cfg, n, n')
  {
    hide Good;
    if t.pc.next !in t.diff {
    } else if t.pc.next in n.mark {
    } else {
    }
  }

  lemma SkipClaims(n: Node, t: Thread, np: Node, k: nat)
    requires Claims(t, n, np) && t.pc == Marking(k) && k !in t.diff
    ensures Claims(t.(pc := Marking(k + 1)), n, np)
  {
  }

  lemma LostClaims(n: Node, t: Thread, np: Node, k: nat)
    requires Claims(t, n, np) && t.pc == Marking(k) && k in n.mark
    ensures Claims(t.(pc := Marking(k + 1), last := false, diff := t.diff - {k}), n, np)
  {
  }

  lemma WonClaims(cfg: Config, n: Node, t: Thread, np: Node, k: nat)
    requires NodeOk(cfg, n) && Claims(t, n, np) && t.pc == Marking(k) && k in t.diff && k !in n.mark
    ensures Claims(t.(pc := Marking(k + 1), last := true, granted := t.granted + {k}), n.(mark := n.mark + {k}), np)
    ensures NodeOk(cfg, n.(mark := n.mark + {k}))
  {
    hide Coherent, Good;
    assert Choosing(t, n);
    assert k !in n.have && k !in n.initial;
  }

  /** The test-and-set of one bit, seen from the thread that does it. */
  lemma MarkClaims(cfg: Config, n: Node, t: Thread, np: Node)
    requires NodeOk(cfg, n) && Claims(t, n, np) && t.pc.Marking?
    ensures var (n', t') := MarkBit(n, t, t.pc.next); Claims(t', n', np) && NodeOk(cfg, n')
    ensures var (n', t') := MarkBit(n, t, t.pc.next);
      && (forall p :: p in n'.mark ==> p in n.mark || p in t'.granted)
      && (forall p :: p in t'.granted ==> p in t.granted || p !in n.mark)
  {
    hide NodeOk, Claims, Outcome;
    var k := t.pc.next;
    if k !in t.diff {
      SkipClaims(n, t, np, k);
    } else if k in n.mark {
      LostClaims(n, t, np, k);
    } else {
      WonClaims(cfg, n, t, np, k);
    }
  }

  /** What the test-and-set of one bit says about the wanted pieces passed so far. */
  lemma MarkOutcome(cfg: Config, n: Node, t: Thread, np: Node)
    requires Claims(t, n, np) && Outcome(cfg, t, n) && t.pc.Marking?
    ensures var (n', t') := MarkBit(n, t, t.pc.next); Outcome(cfg, t', n')
  {
    hide Earmarks, Fulfilled, LastTaken;
    var k := t.pc.next;
    assert Choosing(t, n);
    assert k in t.wanted ==> k in t.diff;
    LastTakenNext(t.granted, t.wanted, k);
    if k !in t.diff {
      assert MarkBit(n, t, k) == (n, t.(pc := Marking(k + 1)));
    } else if k in n.mark {
      assert MarkBit(n, t, k) == (n, t.(pc := Marking(k + 1), last := false, diff := t.diff - {k}));
    } else {
      assert MarkBit(n, t, k).1 == t.(pc := Marking(k + 1), last := true, granted := t.granted + {k});
    }
  }

  lemma LastTakenNext(taken: set<nat>, wanted: set<nat>, k: nat)
    ensures k !in wanted && k !in taken ==> (LastTaken(taken, wanted, k + 1) <==> LastTaken(taken, wanted, k))
    ensures k in wanted && k !in taken ==> !LastTaken(taken, wanted, k + 1)
    ensures LastTaken(taken + {k}, wanted, k + 1)
  {
    if k !in wanted && LastTaken(taken, wanted, k) {
      var p :| p in taken && p < k && forall q :: q in wanted && q < k ==> q <= p;
      assert p < k + 1;
    }
    assert k in taken + {k};
  }

  lemma DecideOk(cfg: Config, me: nat, n: Node, t: Thread, f: Thread, np: Node, order: seq<nat>)
    requires Here(cfg, n, t, f, np) && t.pc.Marking? && t.pc.next >= 8 * cfg.len && IsOrder(order, t.reqs + t.diff)
    ensures var (n', t') := Local(cfg, me, n, t, f.out, Decide(order)); StepOk(cfg, n, t, n', t', f, np)
  {
    hide Coherent, Good, NodeOk, Claims, Outcome, Log, Session;
    var t', won := Act(cfg, t, order), EarmarkResult(cfg, t);
    DecideClaims(cfg, n, t, np, order);
    DecideOutcome(cfg, n, t, np, order);
    RegisteredHasSent(t, f);
    if won {
      RequestsSound(cfg, t', f, n, order);
    }
    var ms := (if won then [Interested] else [NotInterested])
      + if won && !t.accepting && !t.chokedNode then Requests(order) else [];
    SendKeepsSession(t, t', f, ms);
    SendKeepsLog(cfg, t, t', f, n, ms);
    QuietStep(cfg, n, t, t', f, np);
  }

  lemma DecideClaims(cfg: Config, n: Node, t: Thread, np: Node, order: seq<nat>)
    requires ValidConfig(cfg) && NodeOk(cfg, np) && Claims(t, n, np) && t.pc.Marking? && t.pc.next >= 8 * cfg.len
    ensures Claims(Act(cfg, t, order), n, np) && t.fieldRead
    ensures forall p :: !Wants(t, p)
  {
    hide Coherent, Good;
    LoopDone(cfg, t, n, np);
    hide ValidConfig, NodeOk;
    assert Earmarks(t, n, np) && Choosing(t, n);
    ActClaims(cfg, n, t, np, order);
  }

  lemma ActClaims(cfg: Config, n: Node, t: Thread, np: Node, order: seq<nat>)
    requires Earmarks(t, n, np) && Choosing(t, n) && forall p :: p in t.granted <==> p in t.diff
    requires forall p :: p in t.peerField ==> p in np.have && (p in n.have || p in n.mark)
    ensures Claims(Act(cfg, t, order), n, np)
  {
    hide Requests, EarmarkResult;
    var t' := Act(cfg, t, order);
    if EarmarkResult(cfg, t) {
      assert Earmarks(t', n, np) && Chosen(t', n);
    } else {
      assert Earmarks(t', n, np) && Chosen(t', n);
    }
  }

  /** At the end of the loop the last outcome says whether the highest wanted piece was won. */
  lemma DecideOutcome(cfg: Config, n: Node, t: Thread, np: Node, order: seq<nat>)
    requires ValidConfig(cfg) && NodeOk(cfg, np) && Claims(t, n, np) && Outcome(cfg, t, n)
    requires t.pc.Marking? && t.pc.next >= 8 * cfg.len
    ensures Outcome(cfg, Act(cfg, t, order), n)
    ensures t.last <==> HighestTaken(t.granted, t.wanted)
  {
    WantedPassed(cfg, n, t, np);
    DecideGranted(cfg, n, t, np);
    hide ValidConfig, NodeOk, Claims, LastTaken, HighestTaken;
    LastIsHighest(t.granted, t.wanted, t.pc.next);
    ActOutcome(cfg, n, t, order);
  }

  lemma ActOutcome(cfg: Config, n: Node, t: Thread, order: seq<nat>)
    requires WantedOfField(t, n) && t.fieldRead && t.granted == t.diff && t.dropped == {}
    requires t.last <==> HighestTaken(t.granted, t.wanted)
    requires t.last ==> t.granted != {}
    ensures Outcome(cfg, Act(cfg, t, order), n)
  {
    hide HighestTaken, Requests, LastTaken;
  }

  lemma WantedPassed(cfg: Config, n: Node, t: Thread, np: Node)
    requires ValidConfig(cfg) && NodeOk(cfg, np) && Claims(t, n, np) && Outcome(cfg, t, n)
    requires t.pc.Marking? && t.pc.next >= 8 * cfg.len
    ensures t.granted <= t.wanted && forall p :: p in t.wanted ==> p < t.pc.next
  {
    hide Coherent, Good, Earmarks, LastTaken;
    assert forall p :: p in t.wanted ==> p in t.peerField && p in np.have && p in cfg.views;
  }

  lemma DecideGranted(cfg: Config, n: Node, t: Thread, np: Node)
    requires ValidConfig(cfg) && NodeOk(cfg, np) && Claims(t, n, np) && t.pc.Marking? && t.pc.next >= 8 * cfg.len
    ensures t.granted == t.diff && t.reqs == {} && t.dropped == {} && t.fieldRead
  {
    hide Coherent, Good, Earmarks, NodeOk;
    LoopDone(cfg, t, n, np);
    assert Choosing(t, n);
  }

  lemma LastIsHighest(taken: set<nat>, wanted: set<nat>, k: nat)
    requires taken <= wanted && forall p :: p in wanted ==> p < k
    ensures LastTaken(taken, wanted, k) <==> HighestTaken(taken, wanted)
    ensures HighestTaken(taken, wanted) ==> taken != {}
  {
    if p :| p in taken && p < k && forall q :: q in wanted && q < k ==> q <= p {
      assert forall q :: q in wanted ==> q <= p;
    }
    if p :| p in taken && forall q :: q in wanted ==> q <= p {
      assert p < k;
    }
  }

  /** At the end of the loop every bit left in `diff` is an earmark. */
  lemma LoopDone(cfg: Config, t: Thread, n: Node, np: Node)
    requires ValidConfig(cfg) && NodeOk(cfg, np) && Claims(t, n, np) && t.pc.Marking? && t.pc.next >= 8 * cfg.len
    ensures forall p :: p in t.granted <==> p in t.diff
    ensures forall p :: p in t.diff ==> p < t.pc.next
  {
    hide Coherent, Good, Earmarks;
    assert Choosing(t, n);
    assert forall p :: p in t.diff ==> p in np.have && p in cfg.views && p < 8 * cfg.len;
  }

  lemma TimeoutOk(cfg: Config, me: nat, n: Node, t: Thread, f: Thread, np: Node, order: seq<nat>)
    requires Here(cfg, n, t, f, np) && t.pc == Waiting && IsOrder(order, t.reqs)
    ensures var (n', t') := Local(cfg, me, n, t, f.out, Timeout(order)); StepOk(cfg, n, t, n', t', f, np)
  {
    hide Coherent, Good, NodeOk, Claims, Outcome, Log, Session, TimeoutSends, Sound;
    var t', ms := TimeOut(n, t, order), TimeoutSends(n, t, order);
    TimeoutSendsSound(cfg, n, t, t', f, np, order);
    RegisteredHasSent(t, f);
    SendOnlyStep(cfg, n, t, t', f, np, ms);
  }

  lemma TimeoutSendsSound(cfg: Config, n: Node, t: Thread, t': Thread, f: Thread, np: Node, order: seq<nat>)
    requires IsOrder(order, t.reqs) && t'.reqs == t.reqs && t'.peerField == t.peerField && Claims(t, n, np)
    ensures forall m :: m in TimeoutSends(n, t, order) ==> Plain(m) && Sound(cfg, m, t', f, n)
    ensures TimeoutSends(n, t, order) != [] ==> t.fieldRead
  {
    hide Claims, Outcome;
    NoFieldNoHaves(n.store.index.cmap, 0, 8 * t.peerLen);
    HavesOfField(t.peerField, n.store.index.cmap, 0, 8 * t.peerLen);
    RequestsSound(cfg, t', f, n, order);
    WantsWhatPeerHas(t, n, np);
  }

  lemma RequestsOnly(order: seq<nat>)
    ensures forall m :: m in Requests(order) ==> m.Request?
  {
  }

  lemma TimeoutSendsOnly(n: Node, t: Thread, order: seq<nat>)
    ensures Requests(order) <= TimeoutSends(n, t, order)
    ensures forall m :: m in TimeoutSends(n, t, order) ==> m.Request? || m.Have?
  {
    hide Haves, Requests;
    HavesOfField(t.peerField, n.store.index.cmap, 0, 8 * t.peerLen);
    RequestsOnly(order);
  }

  lemma {:induction false} HavesOfField(field: set<nat>, cmap: map<int, int>, from: nat, upto: nat)
    ensures forall m :: m in Haves(field, cmap, from, upto) ==> m.Have? && m.pcno in field
    decreases upto - from
  {
    if from < upto {
      HavesOfField(field, cmap, from + 1, upto);
    }
  }

  lemma {:induction false} NoFieldNoHaves(cmap: map<int, int>, from: nat, upto: nat)
    ensures Haves({}, cmap, from, upto) == []
    decreases upto - from
  {
    if from < upto {
      NoFieldNoHaves(cmap, from + 1, upto);
    }
  }

  lemma HangupOk(cfg: Config, me: nat, n: Node, t: Thread, f: Thread, np: Node)
    requires Here(cfg, n, t, f, np) && t.pc == Waiting
    ensures var (n', t') := Local(cfg, me, n, t, f.out, Hangup); StepOk(cfg, n, t, n', t', f, np)
  {
    hide Coherent, Good, NodeOk, Claims, Outcome, Log, Session, Sound;
    SendOnlyStep(cfg, n, t, Exit(t), f, np, []);
  }

  /** The neighbour is never choked, so unchoking it changes nothing. */
  lemma UnchokeOk(cfg: Config, n: Node, t: Thread, f: Thread, np: Node)
    requires Here(cfg, n, t, f, np)
    ensures t.(nbrChoked := false) == t && StepOk(cfg, n, t, n, t, f, np)
  {
    hide Coherent, Good, NodeOk, Claims, Outcome, Log, Session, Busy;
    ClaimsAlone(t, n, np);
  }

  lemma ClaimsAlone(t: Thread, n: Node, np: Node)
    requires Claims(t, n, np)
    ensures t.granted <= n.mark
  {
  }

  // ----- receiving a message -----

  /**
   When a message case fails: a message on interest or a request with no neighbour yet, a request for a piece not held,
   a second bit field, or one too short for the node's own.
   */
  lemma FailsIff(cfg: Config, me: nat, n: Node, t: Thread, m: Message, order: seq<nat>, piece: Bytes)
    requires t.pc == Waiting
    ensures Dispatch(cfg, me, n, t, m, order, piece).pc == Failed <==>
      || ((m.Interested? || m.NotInterested? || m.Request?) && !t.registered)
      || (m.Request? && m.pcno !in n.have)
      || (m.BitField? && (t.fieldRead || m.len < cfg.len))
  {
    hide Requests;
    match m
    case Handshake(_) =>
    case Choke =>
    case UnChoke =>
    case Interested =>
    case NotInterested =>
    case Have(_) =>
    case BitField(_, _) =>
    case Request(_) =>
    case Piece(_, _) =>
  }

  /** As the neighbour is never choked, no choke status goes out before a message's case. */
  lemma StatusSilent(cfg: Config, me: nat, n: Node, t: Thread, m: Message, order: seq<nat>, piece: Bytes)
    requires !t.nbrChoked
    ensures Handle(cfg, me, n, t, m, order, piece) == Dispatch(cfg, me, n, t.(taken := t.taken + 1), m, order, piece)
  {
    hide Dispatch;
    assert t.out + [] == t.out;
  }

  /** A plain message can be taken first and handled afterwards. */
  lemma TakePlain(cfg: Config, n: Node, t: Thread, t0: Thread, f: Thread, np: Node)
    requires Here(cfg, n, t, f, np) && t.pc == Waiting && t.taken < |f.out| && Plain(f.out[t.taken])
    requires t0 == t.(taken := t.taken + 1)
    ensures Here(cfg, n, t0, f, np) && t0.registered
    ensures Sound(cfg, f.out[t.taken], f, t0, np)
  {
    hide Coherent, Good, NodeOk;
    TakeKeepsSession(t, t0, f);
    SamePiecesSameClaims(cfg, t, t0, n, np);
    SendKeepsLog(cfg, t, t0, f, n, []);
    assert Session(f, t0);
    BusyAcross(cfg, f, t, t0, np, np);
    LogAcross(cfg, f, t, t0, np, np);
    assert f.out[t.taken] in f.out;
  }

  lemma TakenStep(cfg: Config, n: Node, t: Thread, t0: Thread, n': Node, t': Thread, f: Thread, np: Node)
    requires t0 == t.(taken := t.taken + 1) && StepOk(cfg, n, t0, n', t', f, np)
    ensures StepOk(cfg, n, t, n', t', f, np)
  {
    hide Coherent, Good, NodeOk, ThreadOk;
    assert forall p :: Wants(t, p) ==> Wants(t0, p);
  }

  lemma ReceiveHandshakeOk(cfg: Config, me: nat, n: Node, t: Thread, f: Thread, np: Node, order: seq<nat>, piece: Bytes)
    requires Here(cfg, n, t, f, np) && t.pc == Waiting && t.taken < |f.out| && f.out[t.taken].Handshake?
    ensures StepOk(cfg, n, t, n, Handle(cfg, me, n, t, f.out[t.taken], order, piece), f, np)
  {
    hide Coherent, Good, NodeOk, Claims, Outcome, Log;
    StatusSilent(cfg, me, n, t, f.out[t.taken], order, piece);
    var t' := Handle(cfg, me, n, t, f.out[t.taken], order, piece);
    var ms := if t.accepting then [Handshake(me)] else [];
    assert t.taken == 0;
    SamePiecesSameClaims(cfg, t, t', n, np);
    SendKeepsLog(cfg, t, t', f, n, ms);
    QuietStep(cfg, n, t, t', f, np);
  }

  lemma ReceiveFieldOk(cfg: Config, me: nat, n: Node, t: Thread, f: Thread, np: Node, order: seq<nat>, piece: Bytes)
    requires Here(cfg, n, t, f, np) && t.pc == Waiting && t.taken < |f.out| && f.out[t.taken].BitField?
    ensures StepOk(cfg, n, t, n, Handle(cfg, me, n, t, f.out[t.taken], order, piece), f, np)
  {
    hide Coherent, Good, NodeOk;
    StatusSilent(cfg, me, n, t, f.out[t.taken], order, piece);
    var t' := Handle(cfg, me, n, t, f.out[t.taken], order, piece);
    assert Sound(cfg, f.out[t.taken], f, t, np);
    FirstField(t, f);
    InitialHeld(cfg, n);
    var ms := if t.accepting then [BitField(cfg.len, n.have)] else [];
    SendKeepsLog(cfg, t, t', f, n, ms);
    ReceiveFieldSession(t, t', f, ms);
    QuietStep(cfg, n, t, t', f, np);
  }

  /** A thread that is about to take a bit field has taken none before. */
  lemma FirstField(t: Thread, f: Thread)
    requires Session(t, f) && Session(f, t) && t.taken < |f.out| && f.out[t.taken].BitField?
    ensures !t.fieldRead && t.registered
  {
  }

  lemma ReceiveFieldSession(t: Thread, t': Thread, f: Thread, ms: seq<Message>)
    requires Session(t, f) && !t.fieldRead && t.registered && t.pc == Waiting
    requires t.taken < |f.out| && f.out[t.taken].BitField?
    requires t'.out == t.out + ms && if t.accepting then |ms| == 1 && ms[0].BitField? else ms == []
    requires t'.taken == t.taken + 1 && t'.registered && t'.fieldRead && t'.accepting == t.accepting && t'.pc == Diffing
    requires t'.peerField == f.out[t.taken].pieces
    ensures Session(t', f)
  {
    if t.accepting {
      assert t'.out[|t.out|] == ms[0];
      assert !FieldIn(t.out, |t.out|);
    } else {
      assert t'.out == t.out;
    }
  }

  lemma ReceiveRequestOk(cfg: Config, me: nat, n: Node, t: Thread, f: Thread, np: Node, order: seq<nat>, piece: Bytes)
    requires Here(cfg, n, t, f, np) && t.pc == Waiting && t.taken < |f.out| && f.out[t.taken].Request?
    ensures StepOk(cfg, n, t, n, Handle(cfg, me, n, t, f.out[t.taken], order, piece), f, np)
  {
    hide Coherent, Good, NodeOk, Claims, Outcome, Log, Session;
    StatusSilent(cfg, me, n, t, f.out[t.taken], order, piece);
    var t', t0 := Handle(cfg, me, n, t, f.out[t.taken], order, piece), t.(taken := t.taken + 1);
    TakePlain(cfg, n, t, t0, f, np);
    WantsWhatPeerHas(f, np, n);
    SamePiecesSameClaims(cfg, t0, t', n, np);
    SendKeepsSession(t0, t', f, []);
    SendKeepsLog(cfg, t0, t', f, n, []);
    QuietStep(cfg, n, t0, t', f, np);
    TakenStep(cfg, n, t, t0, n, t', f, np);
  }

  lemma ReceivePieceOk(cfg: Config, me: nat, n: Node, t: Thread, f: Thread, np: Node, order: seq<nat>, piece: Bytes)
    requires Here(cfg, n, t, f, np) && t.pc == Waiting && t.taken < |f.out| && f.out[t.taken].Piece?
    requires Printed(piece, View(f.out[t.taken].payload), cfg.pcsz)
    ensures StepOk(cfg, n, t, n, Handle(cfg, me, n, t, f.out[t.taken], order, piece), f, np)
  {
    hide Coherent, Good, NodeOk, Log, Session, Claims, Outcome, View, Printed;
    var m := f.out[t.taken];
    StatusSilent(cfg, me, n, t, m, order, piece);
    var t', t0 := Handle(cfg, me, n, t, m, order, piece), t.(taken := t.taken + 1);
    TakePlain(cfg, n, t, t0, f, np);
    PieceFits(cfg, piece, m.payload);
    EarmarksOfClaims(t0, n, np);
    assert m.pcno in n.have ==> t'.reqs == t0.reqs;
    SamePiecesSameClaims(cfg, t0, t', n, np);
    SendKeepsSession(t0, t', f, []);
    SendKeepsLog(cfg, t0, t', f, n, []);
    QuietStep(cfg, n, t0, t', f, np);
    TakenStep(cfg, n, t, t0, n, t', f, np);
  }

  /** A sound payload fits, with its terminator, in the buffer it is printed into. */
  lemma PieceFits(cfg: Config, piece: Bytes, payload: Bytes)
    requires Printed(piece, View(payload), cfg.pcsz) && 0 !in payload && |payload| < cfg.pcsz
    ensures |piece| == cfg.pcsz && Terminated(piece) && View(piece) == payload
  {
    hide View;
    ViewOfText(payload);
    PrintedView(piece, payload, cfg.pcsz);
    assert payload[..|payload|] == payload;
  }

  lemma ReceiveOtherOk(cfg: Config, me: nat, n: Node, t: Thread, f: Thread, np: Node, order: seq<nat>, piece: Bytes)
    requires Here(cfg, n, t, f, np) && t.pc == Waiting && t.taken < |f.out|
    requires var m := f.out[t.taken]; Plain(m) && !m.Request? && !m.Piece?
    ensures StepOk(cfg, n, t, n, Handle(cfg, me, n, t, f.out[t.taken], order, piece), f, np)
  {
    hide Coherent, Good, NodeOk, Claims, Outcome, Log, Session;
    var m := f.out[t.taken];
    StatusSilent(cfg, me, n, t, m, order, piece);
    var t', t0 := Handle(cfg, me, n, t, m, order, piece), t.(taken := t.taken + 1);
    TakePlain(cfg, n, t, t0, f, np);
    var ms := if m.Have? && m.pcno in t.reqs then [Interested, Request(m.pcno)] else [];
    SendOnlyStep(cfg, n, t0, t', f, np, ms);
    TakenStep(cfg, n, t, t0, n, t', f, np);
  }

  lemma ReceiveOk(cfg: Config, me: nat, n: Node, t: Thread, f: Thread, np: Node, order: seq<nat>, piece: Bytes)
    requires Here(cfg, n, t, f, np) && Enabled(cfg, n, t, f.out, Receive(order, piece))
    ensures var (n', t') := Local(cfg, me, n, t, f.out, Receive(order, piece)); StepOk(cfg, n, t, n', t', f, np)
  {
    hide Here, StepOk, Handle, Dispatch, IsOrder;
    match f.out[t.taken]
    case Handshake(_) => ReceiveHandshakeOk(cfg, me, n, t, f, np, order, piece);
    case BitField(_, _) => ReceiveFieldOk(cfg, me, n, t, f, np, order, piece);
    case Request(_) => ReceiveRequestOk(cfg, me, n, t, f, np, order, piece);
    case Piece(_, _) => ReceivePieceOk(cfg, me, n, t, f, np, order, piece);
    case _ => ReceiveOtherOk(cfg, me, n, t, f, np, order, piece);
  }

  // ----- steps on the store -----

  lemma ServeOk(cfg: Config, me: nat, n: Node, t: Thread, f: Thread, np: Node, order: seq<nat>, loaded: Bytes)
    requires Here(cfg, n, t, f, np) && Enabled(cfg, n, t, f.out, Serve(order, loaded))
    ensures var (n', t') := Local(cfg, me, n, t, f.out, Serve(order, loaded)); StepOk(cfg, n, t, n', t', f, np)
  {
    hide Coherent, Good, NodeOk, Claims, Outcome, Log, Session, StepOk, IsOrder;
    var (n', t') := Local(cfg, me, n, t, f.out, Serve(order, loaded));
    var p := t.pc.p;
    ServeStore(cfg, n, p, loaded);
    var ms := [Piece(p, cfg.views[p])] + Requests(order);
    RequestsSound(cfg, t', f, n, order);
    SendOnlyStep(cfg, n, t, t', f, np, ms);
    ReorderStep(cfg, n, t, n', t', f, np, p);
  }

  /** What a step does to the cache while it leaves the file alone. */
  lemma ReorderStep(cfg: Config, n: Node, t: Thread, n': Node, t': Thread, f: Thread, np: Node, p: nat)
    requires ValidConfig(cfg) && NodeOk(cfg, n) && StepOk(cfg, n, t, n, t', f, np) && p in n.have
    requires n' == n.(store := n'.store) && n'.store.file == n.store.file
    requires Coherent(n'.store, cfg.pcsz, cfg.maxsz)
    requires n'.store.index.cmap.Keys <= n.store.index.cmap.Keys + {Pos(p, cfg.pcsz)}
    ensures StepOk(cfg, n, t, n', t', f, np)
  {
    hide Coherent, ThreadOk, NodeOk, Good;
    ReorderKeeps(cfg, n, n', p);
    ThreadAcross(cfg, t', f, f, n, n', np, np);
  }

  lemma ReorderKeeps(cfg: Config, n: Node, n': Node, p: nat)
    requires ValidConfig(cfg) && NodeOk(cfg, n) && p in n.have
    requires n' == n.(store := n'.store) && n'.store.file == n.store.file
    requires Coherent(n'.store, cfg.pcsz, cfg.maxsz)
    requires n'.store.index.cmap.Keys <= n.store.index.cmap.Keys + {Pos(p, cfg.pcsz)}
    ensures NodeOk(cfg, n') && NodeGrows(cfg, n, n')
    ensures forall q: nat :: Pos(q, cfg.pcsz) in n'.store.index.cmap ==>
      Pos(q, cfg.pcsz) in n.store.index.cmap || q in n.have
  {
    hide Coherent;
    forall q: nat | Pos(q, cfg.pcsz) in n'.store.index.cmap
      ensures Pos(q, cfg.pcsz) in n.store.index.cmap || q in n.have
    {
      if Pos(q, cfg.pcsz) == Pos(p, cfg.pcsz) {
        PosInjective(q, p, cfg.pcsz);
      }
    }
  }

  /** Serving a held piece sends its string and leaves the file alone. */
  lemma ServeStore(cfg: Config, n: Node, p: nat, loaded: Bytes)
    requires ValidConfig(cfg) && NodeOk(cfg, n) && p in n.have
    requires Mapped(n.store.index, Pos(p, cfg.pcsz)) || ReadInto(loaded, n.store.file, Pos(p, cfg.pcsz), cfg.pcsz)
    ensures var st' := Get(n.store, p, loaded, cfg.pcsz, cfg.maxsz);
      && st'.file == n.store.file && Coherent(st', cfg.pcsz, cfg.maxsz)
      && st'.index.cmap.Keys <= n.store.index.cmap.Keys + {Pos(p, cfg.pcsz)}
    ensures p in cfg.views && View(Strncpy(Served(n.store, Pos(p, cfg.pcsz), loaded))) == cfg.views[p]
  {
    assert Good(cfg, n.store, p);
    GetServesFile(n.store, p, loaded, cfg.pcsz, cfg.maxsz);
    UpdateEntries(n.store.index, Pos(p, cfg.pcsz), loaded, cfg.maxsz);
  }

  lemma WriteOk(cfg: Config, me: nat, n: Node, t: Thread, f: Thread, np: Node, copy: Bytes)
    requires Here(cfg, n, t, f, np) && Enabled(cfg, n, t, f.out, Write(copy))
    requires Pos(t.pc.p, cfg.pcsz) !in n.store.index.cmap
    ensures var (n', t') := Local(cfg, me, n, t, f.out, Write(copy)); StepOk(cfg, n, t, n', t', f, np)
  {
    hide Coherent, Good, Claims, Outcome, Log, Session, Put, NodeOk, Printed;
    var (n', t') := Local(cfg, me, n, t, f.out, Write(copy));
    WriteNode(cfg, n, t.pc.p, t.pc.piece, copy);
    SamePiecesSameClaims(cfg, t, t', n, np);
    SendKeepsSession(t, t', f, []);
    SendKeepsLog(cfg, t, t', f, n, []);
    ClaimsAcross(cfg, t', n, n', np, np);
    OutcomeAcross(cfg, t', n, n');
    LogAcross(cfg, t', f, f, n, n');
    EarmarksOfClaims(t', n', np);
  }

  lemma EarmarksOfClaims(t: Thread, n: Node, np: Node)
    requires Claims(t, n, np)
    ensures Earmarks(t, n, np)
  {
    hide Earmarks;
  }

  lemma WriteNode(cfg: Config, n: Node, p: nat, piece: Bytes, copy: Bytes)
    requires ValidConfig(cfg) && NodeOk(cfg, n) && Pos(p, cfg.pcsz) !in n.store.index.cmap
    requires p in cfg.views && |piece| == cfg.pcsz && Terminated(piece) && View(piece) == cfg.views[p]
    requires Printed(copy, View(piece), cfg.pcsz)
    ensures var n' := n.(store := Put(n.store, p, piece, copy, cfg.pcsz, cfg.maxsz));
      && NodeOk(cfg, n') && NodeGrows(cfg, n, n') && Good(cfg, n'.store, p)
      && forall q: nat :: Pos(q, cfg.pcsz) in n'.store.index.cmap ==> Pos(q, cfg.pcsz) in n.store.index.cmap || q == p
  {
    hide Coherent, Good, Put;
    WriteStore(cfg, n.store, p, piece, copy);
    var n' := n.(store := Put(n.store, p, piece, copy, cfg.pcsz, cfg.maxsz));
    forall q: nat | Pos(q, cfg.pcsz) in n'.store.index.cmap
      ensures Pos(q, cfg.pcsz) in n.store.index.cmap || q == p
    {
      if Pos(q, cfg.pcsz) == Pos(p, cfg.pcsz) {
        PosInjective(q, p, cfg.pcsz);
      }
    }
  }

  /** Writing a piece that is not cached keeps every good piece good and makes this one good. */
  lemma WriteStore(cfg: Config, st: Store, p: nat, piece: Bytes, copy: Bytes)
    requires ValidConfig(cfg) && Coherent(st, cfg.pcsz, cfg.maxsz) && Pos(p, cfg.pcsz) !in st.index.cmap
    requires p in cfg.views && |piece| == cfg.pcsz && Terminated(piece) && View(piece) == cfg.views[p]
    requires Printed(copy, View(piece), cfg.pcsz)
    ensures var st' := Put(st, p, piece, copy, cfg.pcsz, cfg.maxsz);
      && Coherent(st', cfg.pcsz, cfg.maxsz) && Good(cfg, st', p)
      && (forall q :: Good(cfg, st, q) ==> Good(cfg, st', q))
      && st'.index.cmap.Keys <= st.index.cmap.Keys + {Pos(p, cfg.pcsz)}
  {
    PutKeepsCoherentIff(st, p, piece, View(piece), copy, cfg.pcsz, cfg.maxsz);
    UpdateEntries(st.index, Pos(p, cfg.pcsz), copy, cfg.maxsz);
    var st' := Put(st, p, piece, copy, cfg.pcsz, cfg.maxsz);
    forall q | Good(cfg, st, q) && q != p ensures Good(cfg, st', q) {
      PutElsewhere(st, p, piece, cfg.pcsz, q);
    }
  }

  lemma PublishOk(cfg: Config, me: nat, n: Node, t: Thread, f: Thread, np: Node)
    requires Here(cfg, n, t, f, np) && Enabled(cfg, n, t, f.out, Publish)
    ensures var (n', t') := Local(cfg, me, n, t, f.out, Publish); StepOk(cfg, n, t, n', t', f, np)
  {
    hide Coherent, Claims, Outcome, Log, Session, Good, NodeOk;
    var (n', t') := Local(cfg, me, n, t, f.out, Publish);
    SendKeepsSession(t, t', f, []);
    SendKeepsLog(cfg, t, t', f, n, []);
    assert NodeGrows(cfg, n, n');
    LogAcross(cfg, t', f, f, n, n');
    SameOutcome(cfg, t, t', n);
    OutcomeAcross(cfg, t', n, n');
    PublishClaims(cfg, n, t, np, t.pc.p);
    PublishNode(cfg, n, t, np, t.pc.p);
  }

  /** Setting the bit of a piece the thread was fetching. */
  lemma PublishClaims(cfg: Config, n: Node, t: Thread, np: Node, p: nat)
    requires Claims(t, n, np) && t.pc == Flipping(p) && p in t.reqs
    ensures Claims(t.(pc := Waiting, reqs := t.reqs - {p}, got := t.got + {p}),
                   n.(have := n.have + {p}, adds := n.adds + 1), np)
    ensures p in t.granted && t.granted <= n.mark
  {
    var t' := t.(pc := Waiting, reqs := t.reqs - {p}, got := t.got + {p});
    var n' := n.(have := n.have + {p}, adds := n.adds + 1);
    assert Earmarks(t, n, np) && Chosen(t, n);
    assert Earmarks(t', n', np);
    assert Chosen(t', n');
  }

  lemma PublishNode(cfg: Config, n: Node, t: Thread, np: Node, p: nat)
    requires NodeOk(cfg, n) && Claims(t, n, np) && p in t.reqs && Good(cfg, n.store, p)
    ensures NodeOk(cfg, n.(have := n.have + {p}, adds := n.adds + 1))
  {
    hide Coherent, Good;
    assert p !in n.have && p in n.mark by {
      assert Earmarks(t, n, np);
    }
    assert p in cfg.views by {
      GoodViews(cfg, n.store, p);
    }
    assert n.have + {p} - n.initial == n.have - n.initial + {p};
  }

  lemma GoodViews(cfg: Config, st: Store, p: nat)
    requires Good(cfg, st, p)
    ensures p in cfg.views
  {
  }
}
