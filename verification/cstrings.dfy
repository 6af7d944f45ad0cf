/** C strings in byte buffers: what a piece's contents mean once they pass through C string copies. */
module CStrings {

  newtype Byte = x: int | 0 <= x < 256
  type Bytes = seq<Byte>

  /** The C string a buffer holds: everything before its first NUL. */
  function View(s: Bytes): (t: Bytes)
    ensures t <= s && 0 !in t
    ensures |t| < |s| ==> s[|t|] == 0
  {
    if s == [] || s[0] == 0 then [] else [s[0]] + View(s[1..])
  }

  predicate Terminated(s: Bytes) {
    0 in s
  }

  lemma TerminatedView(s: Bytes)
    ensures Terminated(s) <==> |View(s)| < |s|
  {
    if |View(s)| == |s| {
      assert View(s) == s;
    }
  }

  lemma ViewOfText(s: Bytes)
    requires 0 !in s
    ensures View(s) == s
  {
    TerminatedView(s);
  }

  /** The view is determined by the first NUL. */
  lemma {:induction false} FirstNul(s: Bytes, k: nat)
    requires k < |s| && s[k] == 0 && 0 !in s[..k]
    ensures View(s) == s[..k] && Terminated(s)
  {
    if k > 0 {
      assert s[0] == s[..k][0];
      assert s[1..][..k - 1] == s[..k][1..];
      FirstNul(s[1..], k - 1);
    }
  }

  /** A terminated buffer's view does not depend on what follows it. */
  lemma ViewExtends(s: Bytes, t: Bytes)
    requires s <= t && Terminated(s)
    ensures View(t) == View(s) && Terminated(t)
  {
    TerminatedView(s);
    var k := |View(s)|;
    assert t[k] == s[k] == 0 && t[..k] == s[..k] == View(s);
    FirstNul(t, k);
  }

  function Min(a: nat, b: nat): nat {
    if a < b then a else b
  }

  /** What `snprintf(dst, n, "%s", text)` may leave in an uninitialised `dst` of `n` bytes. */
  predicate Printed(dst: Bytes, text: Bytes, n: nat) {
    && |dst| == n > 0
    && var k := Min(|text|, n - 1);
       dst[..k] == text[..k] && dst[k] == 0
  }

  lemma PrintedView(dst: Bytes, text: Bytes, n: nat)
    requires Printed(dst, text, n) && 0 !in text
    ensures Terminated(dst) && View(dst) == text[..Min(|text|, n - 1)]
  {
    FirstNul(dst, Min(|text|, n - 1));
  }

  /** What `strncpy(dst, src, |src|)` leaves in `dst`: the string, padded with NULs. */
  function Strncpy(src: Bytes): (dst: Bytes)
    ensures |dst| == |src| && View(dst) == View(src)
    ensures forall i :: |View(src)| <= i < |dst| ==> dst[i] == 0
  {
    var v := View(src);
    var dst := v + seq(|src| - |v|, _ => 0);
    if |v| < |src| then
      FirstNul(dst, |v|); dst
    else
      assert dst == v == src; dst
  }

  /** What C string functions read at `src`: past an unterminated buffer, on into whatever follows. */
  predicate ReadsAs(src: Bytes, text: Bytes) {
    View(src) <= text && 0 !in text && (Terminated(src) ==> text == View(src))
  }

  /** A text that begins a buffer begins its string. */
  lemma TextBegins(r: Bytes, s: Bytes)
    requires r <= s && 0 !in r
    ensures r <= View(s)
  {
    assert forall k :: 0 <= k < |r| ==> s[k] == r[k] && r[k] != 0;
  }

  /**
   One hop of a piece: the sender turns the buffer `src` into the string `text`, the receiver prints it into a buffer
   of the same size.
   The hop keeps the view exactly when the buffer was terminated.
   */
  lemma HopKeepsViewIff(src: Bytes, text: Bytes, dst: Bytes)
    requires Printed(dst, text, |src|) && ReadsAs(src, text)
    ensures View(dst) == View(src) <==> Terminated(src)
  {
    TerminatedView(src);
    PrintedView(dst, text, |src|);
  }

  /**
   Whatever the receiver's uninitialised buffer held, it ends up byte for byte equal to the sender's
   exactly when the sender's first NUL is its last byte.
   */
  lemma HopKeepsBytesIff(src: Bytes)
    requires src != []
    ensures (forall dst :: Printed(dst, View(src), |src|) ==> dst == src) <==> |View(src)| == |src| - 1
  {
    var v, n := View(src), |src|;
    TerminatedView(src);
    if |v| == n - 1 {
      forall dst | Printed(dst, v, n) ensures dst == src {
        assert dst == dst[..n - 1] + [dst[n - 1]];
        assert src == src[..n - 1] + [src[n - 1]];
      }
    } else {
      var dst := OtherFilling(src);
    }
  }

  /** When the string does not fill the buffer up to its last byte, some filling of the rest differs from `src`. */
  lemma OtherFilling(src: Bytes) returns (dst: Bytes)
    requires src != [] && |View(src)| != |src| - 1
    ensures Printed(dst, View(src), |src|) && dst != src
  {
    var v, n := View(src), |src|;
    var k := Min(|v|, n - 1);
    if k == n - 1 {
      dst := v[..k] + [0];
      assert dst[n - 1] == 0 != v[n - 1] == src[n - 1];
    } else {
      var other: Byte := if src[n - 1] == 0 then 1 else 0;
      dst := v + [0] + seq(n - 2 - k, _ => 0) + [other];
      assert dst[n - 1] == other;
    }
    assert dst[..k] == v[..k];
  }
}
