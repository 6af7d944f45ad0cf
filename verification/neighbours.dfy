/** The table of neighbours: registering them, and choosing whom to unchoke. */
module Neighbours {
  import opened Lru

  datatype Nbr = Nbr(choked: bool, done: bool, interested: bool, requests: nat)

  type Table = map<nat, Nbr>

  predicate Waiting(b: Nbr) {
    !b.done && b.choked && b.interested
  }

  /** Every registered peer has an entry. */
  predicate Complete(peers: seq<nat>, info: Table) {
    forall i :: 0 <= i < |peers| ==> peers[i] in info
  }

  /** Neighbours that could be unchoked: choked, interested and not done. */
  function Eligible(peers: seq<nat>, info: Table): set<nat> {
    set id | id in info && id in peers && Waiting(info[id])
  }

  /** Neighbour `i` is the first one not done with its request count: the one a map keyed by that count keeps. */
  predicate FirstWithCount(peers: seq<nat>, info: Table, i: nat)
    requires Complete(peers, info) && i < |peers|
  {
    && !info[peers[i]].done
    && forall j :: 0 <= j < i && !info[peers[j]].done ==> info[peers[j]].requests != info[peers[i]].requests
  }

  /** The neighbours that survive the map keyed by request count, of the first `n` registered. */
  ghost function Kept(peers: seq<nat>, info: Table, n: nat): set<nat>
    requires Complete(peers, info) && n <= |peers|
  {
    set i | 0 <= i < n && FirstWithCount(peers, info, i) :: peers[i]
  }

  /**
   `u` is a right choice of `n` neighbours to unchoke: as many as there can be, and none passed over for a lesser one.
   */
  ghost predicate TopK(u: set<nat>, peers: seq<nat>, info: Table, n: nat) {
    && u <= Eligible(peers, info)
    && |u| == (if n < |Eligible(peers, info)| then n else |Eligible(peers, info)|)
    && forall a, b :: a in u && b in Eligible(peers, info) - u ==> info[b].requests <= info[a].requests
  }

  /** What the code as written chooses: the same, but only among the kept. */
  ghost predicate TopKept(u: set<nat>, peers: seq<nat>, info: Table, n: nat)
    requires Complete(peers, info)
  {
    var ek := Eligible(peers, info) * Kept(peers, info, |peers|);
    && u <= ek
    && (|u| == n || (|u| <= n && u == ek))
    && forall a, b :: a in u && b in ek - u ==> info[b].requests < info[a].requests
  }

  /** Of all the kept neighbours the one with the most requests is not to be unchoked. */
  ghost predicate FirstKeptPassed(peers: seq<nat>, info: Table)
    requires Complete(peers, info)
  {
    exists a :: a in Kept(peers, info, |peers|) && !Waiting(info[a])
      && forall b :: b in Kept(peers, info, |peers|) ==> info[b].requests <= info[a].requests
  }

  /**
   What the code as written chooses for any number of preferred neighbours: the loop stops when it has unchoked that
   many, which with 0 it has only right after passing over the first, and with fewer never.
   */
  ghost predicate ChoiceAsWritten(u: set<nat>, peers: seq<nat>, info: Table, nPref: int)
    requires Complete(peers, info)
  {
    if nPref > 0 then TopKept(u, peers, info, nPref)
    else if nPref == 0 && FirstKeptPassed(peers, info) then u == {}
    else u == Eligible(peers, info) * Kept(peers, info, |peers|)
  }

  /** The kept, eligible neighbours with at least as many requests as `d`. */
  ghost function Ahead(peers: seq<nat>, info: Table, d: nat): set<nat>
    requires Complete(peers, info) && d in info
  {
    set k | k in Eligible(peers, info) * Kept(peers, info, |peers|) && info[k].requests >= info[d].requests
  }

  /**
   The choice as written is right exactly when every eligible neighbour lost to a tie in the request counts has at
   least `n` kept, eligible ones with as many requests.
   */
  lemma ChoiceIsTopKIff(u: set<nat>, peers: seq<nat>, info: Table, n: nat)
    requires Complete(peers, info) && TopKept(u, peers, info, n)
    ensures TopK(u, peers, info, n) <==>
      forall d :: d in Eligible(peers, info) - Kept(peers, info, |peers|) ==> |Ahead(peers, info, d)| >= n
  {
    var e, kept := Eligible(peers, info), Kept(peers, info, |peers|);
    SubsetSize(u, e);
    if TopK(u, peers, info, n) {
      forall d | d in e - kept ensures |Ahead(peers, info, d)| >= n {
        SubsetSize(u + {d}, e);
        forall a | a in u ensures a in Ahead(peers, info, d) {
          assert d in e - u;
        }
        SubsetSize(u, Ahead(peers, info, d));
      }
    }
    if forall d :: d in e - kept ==> |Ahead(peers, info, d)| >= n {
      CoveredIsTopK(u, peers, info, n);
    }
  }

  lemma CoveredIsTopK(u: set<nat>, peers: seq<nat>, info: Table, n: nat)
    requires Complete(peers, info) && TopKept(u, peers, info, n)
    requires forall d :: d in Eligible(peers, info) - Kept(peers, info, |peers|) ==> |Ahead(peers, info, d)| >= n
    ensures TopK(u, peers, info, n)
  {
    CoveredSize(u, peers, info, n);
    hide Kept;
    forall a, b | a in u && b in Eligible(peers, info) - u ensures info[b].requests <= info[a].requests {
      if b !in Kept(peers, info, |peers|) {
        NotPassedOver(u, peers, info, n, a, b);
      }
    }
  }

  lemma CoveredSize(u: set<nat>, peers: seq<nat>, info: Table, n: nat)
    requires Complete(peers, info) && TopKept(u, peers, info, n)
    requires forall d :: d in Eligible(peers, info) - Kept(peers, info, |peers|) ==> |Ahead(peers, info, d)| >= n
    ensures u <= Eligible(peers, info)
    ensures |u| == if n < |Eligible(peers, info)| then n else |Eligible(peers, info)|
  {
    var e, kept := Eligible(peers, info), Kept(peers, info, |peers|);
    SubsetSize(u, e);
    if e - kept == {} {
      forall x | x in e ensures x in kept {
        assert x !in e - kept;
      }
      assert e * kept == e;
    } else {
      var d := Element(e - kept);
      SubsetSize(Ahead(peers, info, d), e * kept);
    }
  }

  lemma Element<T>(s: set<T>) returns (x: T)
    requires s != {}
    ensures x in s
  {
    x :| x in s;
  }

  /** With `n` kept neighbours ahead of `b`, everyone chosen is ahead of it. */
  lemma NotPassedOver(u: set<nat>, peers: seq<nat>, info: Table, n: nat, a: nat, b: nat)
    requires Complete(peers, info) && TopKept(u, peers, info, n) && a in u && b in info
    requires |Ahead(peers, info, b)| >= n
    ensures info[b].requests <= info[a].requests
  {
    if info[a].requests < info[b].requests {
      SubsetSize(Ahead(peers, info, b) + {a}, u);
    }
  }

  /** Two neighbours tied at the top: the second is lost although there is room for it. */
  lemma TieLosesNeighbour()
    ensures var info: Table := map[1 := Nbr(true, false, true, 5), 2 := Nbr(true, false, true, 5)];
      TopKept({1}, [1, 2], info, 2) && !TopK({1}, [1, 2], info, 2)
  {
    var info: Table := map[1 := Nbr(true, false, true, 5), 2 := Nbr(true, false, true, 5)];
    var peers := [1, 2];
    assert Eligible(peers, info) == {1, 2};
    assert FirstWithCount(peers, info, 0) && !FirstWithCount(peers, info, 1);
    assert Kept(peers, info, 2) == {1};
    assert Eligible(peers, info) * Kept(peers, info, |peers|) == {1};
  }

  // ----- the ordered map -----

  ghost predicate Descending(c: seq<nat>, info: Table) {
    && (forall i :: 0 <= i < |c| ==> c[i] in info)
    && (forall i, j :: 0 <= i < j < |c| ==> info[c[i]].requests > info[c[j]].requests)
  }

  ghost predicate CountIn(c: seq<nat>, info: Table, count: nat) {
    exists i :: 0 <= i < |c| && c[i] in info && info[c[i]].requests == count
  }

  /** `insert` into a map keyed by request count: a key already there keeps its value. */
  function Inserted(c: seq<nat>, info: Table, id: nat): (r: seq<nat>)
    requires Descending(c, info) && id in info
    ensures Descending(r, info)
    ensures forall x :: x in r <==> x in c || (x == id && !CountIn(c, info, info[id].requests))
    ensures forall k :: CountIn(r, info, k) <==> CountIn(c, info, k) || k == info[id].requests
  {
    if c == [] then
      CountInHead([id], info);
      [id]
    else if info[c[0]].requests == info[id].requests then c
    else if info[c[0]].requests < info[id].requests then
      CountInHead([id] + c, info);
      assert ([id] + c)[1..] == c;
      [id] + c
    else
      var rest := Inserted(c[1..], info, id);
      CountInHead(c, info);
      CountInHead([c[0]] + rest, info);
      assert ([c[0]] + rest)[1..] == rest;
      DescendingHead(c, rest, info, id);
      [c[0]] + rest
  }

  lemma DescendingHead(c: seq<nat>, rest: seq<nat>, info: Table, id: nat)
    requires c != [] && Descending(c, info) && id in info && info[id].requests < info[c[0]].requests
    requires Descending(rest, info) && forall x :: x in rest ==> x in c[1..] || x == id
    ensures Descending([c[0]] + rest, info)
    ensures forall x :: x in c <==> x == c[0] || x in c[1..]
  {
    assert forall x :: x in c[1..] ==> info[x].requests < info[c[0]].requests;
    assert forall i :: 0 <= i < |rest| ==> rest[i] in rest;
  }

  lemma CountInHead(c: seq<nat>, info: Table)
    requires c != [] && c[0] in info
    ensures forall k :: CountIn(c, info, k) <==> CountIn(c[1..], info, k) || k == info[c[0]].requests
  {
    forall k ensures CountIn(c, info, k) <==> CountIn(c[1..], info, k) || k == info[c[0]].requests {
      if CountIn(c, info, k) {
        var i :| 0 <= i < |c| && c[i] in info && info[c[i]].requests == k;
        assert i > 0 ==> c[1..][i - 1] == c[i];
      }
      if CountIn(c[1..], info, k) {
        var i :| 0 <= i < |c[1..]| && c[1..][i] in info && info[c[1..][i]].requests == k;
        assert c[i + 1] == c[1..][i];
      }
    }
  }

  lemma KeptNext(peers: seq<nat>, info: Table, i: nat)
    requires Complete(peers, info) && i < |peers|
    ensures Kept(peers, info, i + 1) == Kept(peers, info, i) + if FirstWithCount(peers, info, i) then {peers[i]} else {}
  {
  }

  /** A neighbour not done is the first with its count exactly when the map has no such key yet. */
  lemma FirstIffNoKey(c: seq<nat>, peers: seq<nat>, info: Table, i: nat)
    requires Complete(peers, info) && i < |peers|
    requires forall id :: id in c <==> id in Kept(peers, info, i)
    requires forall j :: 0 <= j < i && !info[peers[j]].done ==> CountIn(c, info, info[peers[j]].requests)
    ensures FirstWithCount(peers, info, i) <==> !info[peers[i]].done && !CountIn(c, info, info[peers[i]].requests)
  {
    if CountIn(c, info, info[peers[i]].requests) {
      var k :| 0 <= k < |c| && c[k] in info && info[c[k]].requests == info[peers[i]].requests;
      assert c[k] in Kept(peers, info, i);
    }
  }

  lemma NobodyKept(peers: seq<nat>, info: Table, i: nat)
    requires Complete(peers, info) && i < |peers| && !info[peers[i]].done
    ensures exists j :: 0 <= j < |peers| && FirstWithCount(peers, info, j)
    decreases i
  {
    if !FirstWithCount(peers, info, i) {
      var j :| 0 <= j < i && !info[peers[j]].done && info[peers[j]].requests == info[peers[i]].requests;
      NobodyKept(peers, info, j);
    }
  }

  /** The table with the neighbours of `u` unchoked. */
  function Unchoked(info: Table, u: set<nat>): Table {
    map id | id in info :: if id in u then info[id].(choked := false) else info[id]
  }

  /** Those of `u` are no longer choked, and that is all that differs. */
  lemma UnchokedIs(info: Table, u: set<nat>, id: nat)
    ensures Unchoked(info, u).Keys == info.Keys
    ensures id in info ==> var b, b' := info[id], Unchoked(info, u)[id];
      && (b'.choked <==> b.choked && id !in u)
      && b'.done == b.done && b'.interested == b.interested && b'.requests == b.requests
  {
  }

  /** What a choice does to one neighbour: nothing, or it unchokes one that is registered, interested and not done. */
  ghost predicate Picked(peers: seq<nat>, info: Table, info': Table, id: nat)
    requires id in info
  {
    id in info' && (info'[id] == info[id]
      || (info[id].choked && info[id].interested && !info[id].done && id in peers
          && info'[id] == Nbr(false, false, true, info[id].requests)))
  }

  lemma UnchokedPicked(peers: seq<nat>, info: Table, u: set<nat>, id: nat)
    requires u <= Eligible(peers, info) && id in info
    ensures Picked(peers, info, Unchoked(info, u), id)
  {
  }

  /** The candidates are in the table. */
  predicate Listed(requests: seq<nat>, info: Table) {
    forall i :: 0 <= i < |requests| ==> requests[i] in info
  }

  /** The eligible ones among the first `i` candidates. */
  ghost function ChosenUpto(requests: seq<nat>, info: Table, i: nat): set<nat>
    requires Listed(requests, info) && i <= |requests|
  {
    set k | 0 <= k < i && Waiting(info[requests[k]]) :: requests[k]
  }

  lemma ChosenNext(requests: seq<nat>, info: Table, i: nat)
    requires Descending(requests, info) && i < |requests|
    ensures requests[i] !in ChosenUpto(requests, info, i)
    ensures ChosenUpto(requests, info, i + 1)
         == ChosenUpto(requests, info, i) + if Waiting(info[requests[i]]) then {requests[i]} else {}
  {
  }

  /** They are the top of the kept. */
  lemma ChosenIsTopKept(requests: seq<nat>, i: nat, peers: seq<nat>, info: Table, n: nat)
    requires Complete(peers, info) && Descending(requests, info) && i <= |requests|
    requires forall id :: id in requests <==> id in Kept(peers, info, |peers|)
    requires var u := ChosenUpto(requests, info, i); |u| <= n && (i == |requests| || |u| == n)
    ensures TopKept(ChosenUpto(requests, info, i), peers, info, n)
    ensures i == |requests| ==> ChosenUpto(requests, info, i) == Eligible(peers, info) * Kept(peers, info, |peers|)
  {
    var u, ek := ChosenUpto(requests, info, i), Eligible(peers, info) * Kept(peers, info, |peers|);
    forall a | a in u ensures a in ek {
      assert a in requests;
    }
    forall b | b in ek - u ensures exists k :: i <= k < |requests| && requests[k] == b {
      var k :| 0 <= k < |requests| && requests[k] == b;
    }
    if i == |requests| {
      assert u == ek;
    }
  }

  lemma UnchokeNone(info: Table)
    ensures Unchoked(info, {}) == info
  {
  }

  /** The first candidate is the kept neighbour with the most requests. */
  lemma FirstCandidate(requests: seq<nat>, peers: seq<nat>, info: Table)
    requires Complete(peers, info) && Descending(requests, info) && requests != []
    requires forall id :: id in requests <==> id in Kept(peers, info, |peers|)
    ensures FirstKeptPassed(peers, info) <==> !Waiting(info[requests[0]])
  {
    hide Kept;
    assert requests[0] in requests;
    assert forall b :: b in requests ==> info[b].requests <= info[requests[0]].requests;
  }

  lemma NoneChosen(requests: seq<nat>, info: Table)
    requires Listed(requests, info)
    ensures ChosenUpto(requests, info, 0) == {}
  {
  }

  lemma UnchokedComplete(peers: seq<nat>, info: Table, u: set<nat>)
    requires Complete(peers, info)
    ensures Complete(peers, Unchoked(info, u))
  {
  }

  lemma KeptWaits(peers: seq<nat>, info: Table, id: nat)
    requires Complete(peers, info) && id in Kept(peers, info, |peers|)
    ensures id in info && !info[id].done
  {
  }

  lemma UnchokeOne(info: Table, u: set<nat>, id: nat)
    requires id in info && id !in u
    ensures Unchoked(info, u).Keys == info.Keys && Unchoked(info, u)[id] == info[id]
    ensures Unchoked(info, u)[id := info[id].(choked := false)] == Unchoked(info, u + {id})
  {
  }

  lemma NoneSized(u: set<nat>)
    requires |u| == 0
    ensures u == {}
  {
  }

  // ----- the counter of peers still to register -----

  const COUNTER_SIZE: nat := 0x1_0000_0000

  /** An unsigned 32-bit decrement. */
  function Decremented(c: nat): nat {
    if c == 0 then COUNTER_SIZE - 1 else c - 1
  }

  /** The counter after `k` registrations. */
  function CounterAfter(start: nat, k: nat): nat {
    if k == 0 then start else Decremented(CounterAfter(start, k - 1))
  }

  lemma {:induction false} CounterIs(start: nat, k: nat)
    requires start < COUNTER_SIZE
    ensures CounterAfter(start, k) == (start - k) % COUNTER_SIZE
  {
    if k > 0 {
      CounterIs(start, k - 1);
    }
  }

  /**
   The counter starts at the number of listed nodes, the node itself among them, so it is 0 only after as many
   registrations: with one for each other node it never is, and no neighbour is ever chosen.
   */
  lemma CounterIsZeroIff(listed: nat, k: nat)
    requires 0 < listed < COUNTER_SIZE
    ensures CounterAfter(listed, k) == 0 <==> k % COUNTER_SIZE == listed
    ensures k < listed ==> CounterAfter(listed, k) != 0
  {
    CounterIs(listed, k);
  }

  // ----- the choice with ties kept -----

  /** Ordered by request count, highest first, ties allowed. */
  ghost predicate Falling(c: seq<nat>, info: Table) {
    Listed(c, info) && forall i, j :: 0 <= i < j < |c| ==> info[c[i]].requests >= info[c[j]].requests
  }

  /** `insert` into a multimap keyed by request count: after those with as many. */
  function InsertedWithTies(c: seq<nat>, info: Table, id: nat): (r: seq<nat>)
    requires Falling(c, info) && id in info
    ensures Falling(r, info) && forall x :: x in r <==> x in c || x == id
  {
    if c == [] || info[c[0]].requests < info[id].requests then
      assert forall i :: 0 <= i < |c| ==> info[c[i]].requests < info[id].requests;
      [id] + c
    else
      var rest := InsertedWithTies(c[1..], info, id);
      assert forall x :: x in c[1..] ==> info[x].requests <= info[c[0]].requests;
      assert forall i :: 0 <= i < |rest| ==> rest[i] in rest;
      [c[0]] + rest
  }

  /** With ties kept the first `n` eligible candidates are a right choice. */
  lemma ChosenIsTopK(c: seq<nat>, i: nat, peers: seq<nat>, info: Table, n: nat)
    requires Falling(c, info) && i <= |c| && forall id :: id in Eligible(peers, info) ==> id in c
    requires forall id :: id in c ==> id in peers
    requires var u := ChosenUpto(c, info, i); |u| <= n && (i == |c| || |u| == n)
    ensures TopK(ChosenUpto(c, info, i), peers, info, n)
  {
    var u, e := ChosenUpto(c, info, i), Eligible(peers, info);
    forall a | a in u ensures a in e {
      assert a in c;
    }
    forall b | b in e - u ensures exists k :: i <= k < |c| && c[k] == b {
      var k :| 0 <= k < |c| && c[k] == b;
    }
    SubsetSize(u, e);
    if i == |c| {
      assert e - u == {};
      assert u == e;
    }
  }

  // ----- the table -----

  class NbrTable {
    var npeers: nat               // an unsigned 32-bit counter of peers still to register
    var peers: seq<nat>
    var peerinfo: Table

    ghost predicate Valid()
      reads this
    {
      Complete(peers, peerinfo)
    }

    constructor (npeers: nat)
      requires npeers < COUNTER_SIZE
      ensures Valid() && this.npeers == npeers && peers == [] && peerinfo == map[]
    {
      this.npeers, this.peers, this.peerinfo := npeers, [], map[];
    }

    /**
     `register_cli`: the caller gets a fresh neighbour. For a new id it is the table's (`tabled`); a repeated id is
     listed again but keeps its first entry, and what the caller got is in no table. The counter wraps below zero.
     */
    method RegisterCli(peerid: nat) returns (nbr: Nbr, tabled: bool)
      requires Valid()
      modifies this
      ensures Valid() && peers == old(peers) + [peerid]
      ensures nbr == Nbr(false, false, false, 0) && (tabled <==> peerid !in old(peerinfo))
      ensures peerinfo == if tabled then old(peerinfo)[peerid := nbr] else old(peerinfo)
      ensures npeers == Decremented(old(npeers))
    {
      nbr := Nbr(false, false, false, 0);
      peers := peers + [peerid];
      tabled := peerid !in peerinfo;
      if tabled {
        peerinfo := peerinfo[peerid := nbr];
      }
      npeers := if npeers == 0 then COUNTER_SIZE - 1 else npeers - 1;
    }

    /**
     `select_unchoked`: nothing while peers are still to register; false and nothing when everyone is done; else the
     top `nPref` of the kept neighbours are unchoked and nothing else changes.
     */
    method SelectUnchoked(nPref: int) returns (ret: bool)
      requires Valid()
      modifies this`peerinfo
      ensures Valid()
      ensures npeers != 0 ==> ret && peerinfo == old(peerinfo)
      ensures npeers == 0 ==> (ret <==> exists i :: 0 <= i < |peers| && !old(peerinfo)[peers[i]].done)
      ensures npeers == 0 ==>
        exists u :: (ChoiceAsWritten(u, peers, old(peerinfo), nPref) && peerinfo == Unchoked(old(peerinfo), u))
      ensures peerinfo.Keys == old(peerinfo.Keys)
      ensures forall id :: id in old(peerinfo) ==> Picked(peers, old(peerinfo), peerinfo, id)
    {
      if npeers != 0 {
        return true;
      }
      var requests := SortedByCount();
      forall i | 0 <= i < |peers| && !peerinfo[peers[i]].done ensures requests != [] {
        NobodyKept(peers, peerinfo, i);
        var j :| 0 <= j < |peers| && FirstWithCount(peers, peerinfo, j);
        assert peers[j] in Kept(peers, peerinfo, |peers|);
      }
      if requests == [] {
        assert Unchoked(peerinfo, {}) == peerinfo;
        assert Eligible(peers, peerinfo) * Kept(peers, peerinfo, |peers|) == {};
        assert ChoiceAsWritten({}, peers, peerinfo, nPref);
        return false;
      }
      assert requests[0] in Kept(peers, peerinfo, |peers|);
      ghost var info := peerinfo;
      UnchokeFirst(requests, nPref);
      ghost var u :| ChoiceAsWritten(u, peers, info, nPref) && peerinfo == Unchoked(info, u);
      forall id | id in info ensures Picked(peers, info, peerinfo, id) {
        UnchokedPicked(peers, info, u, id);
      }
      ret := true;
    }

    /** The loop that unchokes the first `nPref` candidates. */
    method UnchokeFirst(requests: seq<nat>, nPref: int)
      requires Valid() && requests != [] && Descending(requests, peerinfo)
      requires forall id :: id in requests <==> id in Kept(peers, peerinfo, |peers|)
      modifies this`peerinfo
      ensures Valid()
      ensures exists u :: (ChoiceAsWritten(u, peers, old(peerinfo), nPref) && peerinfo == Unchoked(old(peerinfo), u))
    {
      hide Kept, Eligible, Unchoked, ChosenUpto, TopKept, FirstKeptPassed;
      ghost var info := peerinfo;
      UnchokeNone(info);
      NoneChosen(requests, info);
      FirstCandidate(requests, peers, info);
      var j, i := 0, 0;
      while i < |requests|
        invariant 0 <= i <= |requests| && j == |ChosenUpto(requests, info, i)|
        invariant (nPref > 0 ==> j < nPref) && (nPref == 0 && i > 0 ==> j > 0 && !FirstKeptPassed(peers, info))
        invariant peerinfo == Unchoked(info, ChosenUpto(requests, info, i))
      {
        var id := requests[i];
        KeptWaits(peers, info, id);
        ChosenNext(requests, info, i);
        UnchokeOne(info, ChosenUpto(requests, info, i), id);
        if peerinfo[id].choked && peerinfo[id].interested {
          peerinfo := peerinfo[id := peerinfo[id].(choked := false)];
          j := j + 1;
        }
        i := i + 1;
        if j == nPref {
          break;
        }
      }
      ChosenIsTopKept(requests, i, peers, info, if nPref > 0 then nPref else j);
      if nPref == 0 && j == 0 {
        NoneSized(ChosenUpto(requests, info, i));
      }
      UnchokedComplete(peers, info, ChosenUpto(requests, info, i));
    }

    /** The map from request count to neighbour, highest count first. */
    method SortedByCount() returns (requests: seq<nat>)
      requires Valid()
      ensures Descending(requests, peerinfo)
      ensures forall id :: id in requests <==> id in Kept(peers, peerinfo, |peers|)
    {
      requests := [];
      for i := 0 to |peers|
        invariant Descending(requests, peerinfo)
        invariant forall id :: id in requests <==> id in Kept(peers, peerinfo, i)
        invariant forall j :: 0 <= j < i && !peerinfo[peers[j]].done ==>
          CountIn(requests, peerinfo, peerinfo[peers[j]].requests)
      {
        KeptNext(peers, peerinfo, i);
        FirstIffNoKey(requests, peers, peerinfo, i);
        if !peerinfo[peers[i]].done {
          requests := Inserted(requests, peerinfo, peers[i]);
        }
      }
    }

    /**
     `select_unchoked` as meant, for a positive number of preferred neighbours: a multimap keeps ties, and the choice
     is a right one whatever the request counts.
     */
    method SelectUnchokedAsMeant(nPref: nat) returns (ret: bool)
      requires Valid() && 0 < nPref
      modifies this`peerinfo
      ensures Valid()
      ensures npeers != 0 ==> ret && peerinfo == old(peerinfo)
      ensures npeers == 0 ==> (ret <==> exists i :: 0 <= i < |peers| && !old(peerinfo)[peers[i]].done)
      ensures npeers == 0 ==>
        exists u :: (TopK(u, peers, old(peerinfo), nPref) && peerinfo == Unchoked(old(peerinfo), u))
      ensures peerinfo.Keys == old(peerinfo.Keys)
      ensures forall id :: id in old(peerinfo) ==> Picked(peers, old(peerinfo), peerinfo, id)
    {
      if npeers != 0 {
        return true;
      }
      var requests := SortedWithTies();
      ret := requests != [];
      if ret {
        assert requests[0] in requests;
      }
      ghost var info := peerinfo;
      UnchokeFirstWithTies(requests, nPref);
      ghost var u :| TopK(u, peers, info, nPref) && peerinfo == Unchoked(info, u);
      forall id | id in info ensures Picked(peers, info, peerinfo, id) {
        UnchokedPicked(peers, info, u, id);
      }
    }

    /** The multimap from request count to neighbour, highest count first. */
    method SortedWithTies() returns (requests: seq<nat>)
      requires Valid()
      ensures Falling(requests, peerinfo)
      ensures forall i :: 0 <= i < |peers| && !peerinfo[peers[i]].done ==> peers[i] in requests
      ensures forall id :: id in requests ==>
        id in peerinfo && !peerinfo[id].done && exists i :: 0 <= i < |peers| && peers[i] == id
    {
      requests := [];
      for i := 0 to |peers|
        invariant Falling(requests, peerinfo)
        invariant forall j :: 0 <= j < i && !peerinfo[peers[j]].done ==> peers[j] in requests
        invariant forall id :: id in requests ==>
          id in peerinfo && !peerinfo[id].done && exists j :: 0 <= j < |peers| && peers[j] == id
      {
        if !peerinfo[peers[i]].done {
          requests := InsertedWithTies(requests, peerinfo, peers[i]);
        }
      }
    }

    /** The loop that unchokes the first `nPref` eligible candidates. */
    method UnchokeFirstWithTies(requests: seq<nat>, nPref: nat)
      requires Valid() && Falling(requests, peerinfo) && 0 < nPref
      requires forall i :: 0 <= i < |peers| && !peerinfo[peers[i]].done ==> peers[i] in requests
      requires forall id :: id in requests ==> id in peers && !peerinfo[id].done
      modifies this`peerinfo
      ensures Valid()
      ensures exists u :: (TopK(u, peers, old(peerinfo), nPref) && peerinfo == Unchoked(old(peerinfo), u))
    {
      hide Unchoked, ChosenUpto, TopK;
      ghost var info := peerinfo;
      UnchokeNone(info);
      NoneChosen(requests, info);
      var j, i := 0, 0;
      while i < |requests| && j != nPref
        invariant 0 <= i <= |requests| && j == |ChosenUpto(requests, info, i)| <= nPref
        invariant peerinfo == Unchoked(info, ChosenUpto(requests, info, i))
      {
        var id := requests[i];
        ChosenOrRepeated(requests, info, i);
        UnchokedAt(info, ChosenUpto(requests, info, i), id);
        if peerinfo[id].choked && peerinfo[id].interested {
          UnchokeOne(info, ChosenUpto(requests, info, i), id);
          peerinfo := peerinfo[id := peerinfo[id].(choked := false)];
          j := j + 1;
        }
        i := i + 1;
      }
      ChosenIsTopK(requests, i, peers, info, nPref);
      UnchokedComplete(peers, info, ChosenUpto(requests, info, i));
    }
  }

  lemma UnchokedAt(info: Table, u: set<nat>, id: nat)
    requires id in info
    ensures id in Unchoked(info, u) && Unchoked(info, u)[id].done == info[id].done
    ensures Waiting(Unchoked(info, u)[id]) <==> Waiting(info[id]) && id !in u
  {
  }

  lemma ChosenOrRepeated(requests: seq<nat>, info: Table, i: nat)
    requires Listed(requests, info) && i < |requests|
    ensures var u := ChosenUpto(requests, info, i);
      ChosenUpto(requests, info, i + 1)
      == u + if Waiting(info[requests[i]]) && requests[i] !in u then {requests[i]} else {}
  {
  }
}
