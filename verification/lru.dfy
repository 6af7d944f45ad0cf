/**
 The trace-level meaning of a least-recently-used list: given the sequence `t` of all accesses so far,
 which positions a list of capacity `k` holds, and in which order.
 */
module Lru {

  /** The index of the last access to `x`. */
  function LastUse(t: seq<int>, x: int): (i: nat)
    requires x in t
    ensures i < |t| && t[i] == x && forall j :: i < j < |t| ==> t[j] != x
  {
    if t[|t| - 1] == x then |t| - 1 else LastUse(t[..|t| - 1], x)
  }

  /** The positions a trace touches from index `from` on. */
  ghost function Touched(t: seq<int>, from: nat): set<int> {
    set j | from <= j < |t| :: t[j]
  }

  /** The positions touched since the last access to `x`. */
  ghost function Since(t: seq<int>, x: int): set<int>
    requires x in t
  {
    Touched(t, LastUse(t, x) + 1)
  }

  /** `s` is ordered by last use in `t`, least recent first. */
  ghost predicate Ordered(s: seq<int>, t: seq<int>) {
    && (forall i :: 0 <= i < |s| ==> s[i] in t)
    && (forall i, j :: 0 <= i < j < |s| ==> LastUse(t, s[i]) < LastUse(t, s[j]))
  }

  /**
   `s` is the (at most) `k` distinct positions most recently used in `t`, in order of last use:
   whatever was used and is not held was last used before everything held, and the list is then full.
   */
  ghost predicate Recent(s: seq<int>, t: seq<int>, k: nat) {
    && |s| <= k
    && Ordered(s, t)
    && (forall x :: x in t && x !in s ==> |s| == k && (k > 0 ==> LastUse(t, x) < LastUse(t, s[0])))
  }

  /** `s` without its element at `i`. */
  function Erase<T>(s: seq<T>, i: nat): seq<T>
    requires i < |s|
  {
    s[..i] + s[i + 1..]
  }

  lemma ErasedElements<T>(s: seq<T>, i: nat, x: T)
    requires i < |s|
    ensures multiset(Erase(s, i) + [x]) == multiset(s) - multiset{s[i]} + multiset{x}
  {
    assert s == s[..i] + [s[i]] + s[i + 1..];
  }

  /** What admitting an element leaves: the front goes when the list is full. */
  function Admit<T>(s: seq<T>, x: T, k: nat): seq<T>
    requires 0 < k
  {
    (if |s| == k then s[1..] else s) + [x]
  }

  lemma LastUseAppend(t: seq<int>, x: int, y: int)
    requires y == x || y in t
    ensures LastUse(t + [x], y) == if y == x then |t| else LastUse(t, y)
  {
    assert (t + [x])[..|t|] == t;
  }

  lemma AppendOrdered(r: seq<int>, t: seq<int>, x: int)
    requires Ordered(r, t) && x !in r
    ensures Ordered(r + [x], t + [x])
  {
    forall i | 0 <= i < |r| ensures LastUse(t + [x], r[i]) == LastUse(t, r[i]) {
      assert r[i] in r;
      LastUseAppend(t, x, r[i]);
    }
    LastUseAppend(t, x, x);
  }

  /** Appending the accessed position to what remains of the others. */
  lemma AppendKeepsRecent(r: seq<int>, t: seq<int>, k: nat, x: int)
    requires Ordered(r, t) && x !in r && |r| < k
    requires forall y :: y in t && y != x && y !in r ==>
      |r| == k - 1 && (k > 1 ==> LastUse(t, y) < LastUse(t, r[0]))
    ensures Recent(r + [x], t + [x], k)
  {
    AppendOrdered(r, t, x);
    forall y | y in t + [x] && y !in r + [x]
      ensures |r + [x]| == k && LastUse(t + [x], y) < LastUse(t + [x], (r + [x])[0])
    {
      LastUseAppend(t, x, y);
      LastUseAppend(t, x, (r + [x])[0]);
    }
  }

  lemma EraseOrdered(s: seq<int>, t: seq<int>, i: nat)
    requires Ordered(s, t) && i < |s|
    ensures Ordered(Erase(s, i), t) && s[i] !in Erase(s, i)
    ensures forall y :: y in s && y != s[i] ==> y in Erase(s, i)
  {
    var r := Erase(s, i);
    assert forall j :: 0 <= j < |r| ==> r[j] == s[if j < i then j else j + 1];
    forall y | y in s && y != s[i] ensures y in r {
      var j :| 0 <= j < |s| && s[j] == y;
      assert r[if j < i then j else j - 1] == y;
    }
  }

  /** Moving the accessed element to the back keeps the list the most recent positions of the trace. */
  lemma HitKeepsRecent(s: seq<int>, t: seq<int>, k: nat, i: nat)
    requires Recent(s, t, k) && i < |s|
    ensures Recent(Erase(s, i) + [s[i]], t + [s[i]], k)
  {
    EraseOrdered(s, t, i);
    AppendKeepsRecent(Erase(s, i), t, k, s[i]);
  }

  /** Admitting a position the list does not hold keeps it the most recent positions of the trace. */
  lemma MissKeepsRecent(s: seq<int>, t: seq<int>, k: nat, x: int)
    requires Recent(s, t, k) && x !in s && 0 < k
    ensures Recent(Admit(s, x, k), t + [x], k)
  {
    if |s| == k {
      var r := s[1..];
      assert forall j :: 0 <= j < |r| ==> r[j] == s[j + 1];
      assert forall y :: y in s ==> y == s[0] || y in r;
      AppendKeepsRecent(r, t, k, x);
    } else {
      AppendKeepsRecent(s, t, k, x);
    }
  }

  /** `Since` is the positions whose last use is later. */
  lemma SinceIsLater(t: seq<int>, x: int, y: int)
    requires x in t
    ensures y in Since(t, x) <==> y in t && LastUse(t, x) < LastUse(t, y)
  {
    if y in t && LastUse(t, x) < LastUse(t, y) {
      assert t[LastUse(t, y)] == y;
    }
  }

  lemma {:induction false} SizeOfDistinct(s: seq<int>, from: nat)
    requires from <= |s|
    requires forall i, j :: 0 <= i < j < |s| ==> s[i] != s[j]
    ensures |Touched(s, from)| == |s| - from
    decreases |s| - from
  {
    if from < |s| {
      SizeOfDistinct(s, from + 1);
      assert Touched(s, from) == {s[from]} + Touched(s, from + 1);
    }
  }

  lemma {:induction false} SubsetSize<T>(a: set<T>, b: set<T>)
    requires a <= b
    ensures |a| <= |b|
    decreases a
  {
    if a != {} {
      var x :| x in a;
      SubsetSize(a - {x}, b - {x});
    }
  }

  /**
   Stack distance: a position is held exactly when fewer than `k` distinct positions were touched
   since its own last access.
   */
  lemma HeldIffStackDistance(s: seq<int>, t: seq<int>, k: nat, x: int)
    requires Recent(s, t, k) && x in t
    ensures x in s <==> |Since(t, x)| < k
  {
    if x in s {
      var i :| 0 <= i < |s| && s[i] == x;
      HeldDistance(s, t, k, i);
    } else {
      SizeOfDistinct(s, 0);
      forall y | y in Touched(s, 0) ensures y in Since(t, x) {
        SinceIsLater(t, x, y);
      }
      SubsetSize(Touched(s, 0), Since(t, x));
    }
  }

  lemma HeldDistance(s: seq<int>, t: seq<int>, k: nat, i: nat)
    requires Recent(s, t, k) && i < |s|
    ensures |Since(t, s[i])| == |s| - 1 - i
  {
    SizeOfDistinct(s, i + 1);
    forall y ensures y in Since(t, s[i]) <==> y in Touched(s, i + 1) {
      SinceIsLater(t, s[i], y);
      assert y in s ==> exists j :: 0 <= j < |s| && s[j] == y;
    }
    assert Since(t, s[i]) == Touched(s, i + 1);
  }

  /** The trace and the capacity determine the held positions and their order. */
  lemma RecentUnique(s: seq<int>, s': seq<int>, t: seq<int>, k: nat)
    requires Recent(s, t, k) && Recent(s', t, k)
    ensures s == s'
  {
    forall x ensures x in s <==> x in s' {
      if x in t {
        HeldIffStackDistance(s, t, k, x);
        HeldIffStackDistance(s', t, k, x);
      }
    }
    OrderedUnique(s, s', t);
  }

  lemma {:induction false} OrderedUnique(s: seq<int>, s': seq<int>, t: seq<int>)
    requires Ordered(s, t) && Ordered(s', t)
    requires forall x :: x in s <==> x in s'
    ensures s == s'
  {
    if s != [] {
      assert s[0] in s;
    }
    if s' != [] {
      assert s'[0] in s';
    }
    if s != [] && s' != [] {
      assert s[0] == s'[0];
      forall x ensures x in s[1..] <==> x in s'[1..] {
        assert x in s <==> x == s[0] || x in s[1..];
        assert x in s' <==> x == s'[0] || x in s'[1..];
      }
      OrderedUnique(s[1..], s'[1..], t);
    }
  }

  /** Inclusion: on one trace, a larger capacity holds everything a smaller one does. */
  lemma LargerHoldsMore(s: seq<int>, s': seq<int>, t: seq<int>, k: nat, k': nat)
    requires Recent(s, t, k) && Recent(s', t, k') && k <= k'
    ensures forall x :: x in s ==> x in s'
  {
    forall x | x in s ensures x in s' {
      HeldIffStackDistance(s, t, k, x);
      HeldIffStackDistance(s', t, k', x);
    }
  }

  /** Between an access to `x` at `i` and a later miss on it, at least `k` distinct other positions were touched. */
  lemma MissNeedsOthers(s: seq<int>, t: seq<int>, k: nat, x: int, i: nat)
    requires Recent(s, t, k) && i < |t| && t[i] == x && x !in s
    ensures |Touched(t, i + 1) - {x}| >= k
  {
    HeldIffStackDistance(s, t, k, x);
    SubsetSize(Since(t, x), Touched(t, i + 1) - {x});
  }

  /** A window that touches at most `k` distinct positions misses each of them at most once. */
  lemma OneMissPerWindow(s: seq<int>, t: seq<int>, k: nat, x: int, from: nat)
    requires Recent(s, t, k)
    requires x in Touched(t, from) && |Touched(t, from)| <= k
    ensures x in s
  {
    HeldIffStackDistance(s, t, k, x);
    assert x !in Since(t, x);
    SubsetSize(Since(t, x), Touched(t, from) - {x});
  }
}
