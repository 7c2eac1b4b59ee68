/** args/args.go: the escaping layer, `indexUnescaped` and `backslashEscape`. */
module ArgsScan {
  import opened Bytes

  const BACKSLASH: byte := 92

  /** Result of looking for an unescaped terminator: where it is and the unescaped text before it. */
  datatype ScanResult = Dangling | Stop(index: nat, text: bytes)

  function Shift(n: nat, prefix: bytes, r: ScanResult): ScanResult {
    match r
    case Dangling => Dangling
    case Stop(k, t) => Stop(n + k, prefix + t)
  }

  function Scan(s: bytes, term: seq<byte>): (r: ScanResult)
    ensures r.Stop? ==> r.index <= |s| && (r.index == 0 <==> r.text == [])
  {
    if s == [] || s[0] in term then Stop(0, [])
    else if s[0] != BACKSLASH then Shift(1, [s[0]], Scan(s[1..], term))
    else if |s| == 1 then Dangling
    else Shift(2, [s[1]], Scan(s[2..], term))
  }

  lemma ScanPlain(s: bytes, i: nat, term: seq<byte>)
    requires i < |s| && s[i] !in term && s[i] != BACKSLASH
    ensures Scan(s[i..], term) == Shift(1, [s[i]], Scan(s[i + 1..], term))
  {
    assert s[i..][1..] == s[i + 1..];
  }

  lemma ScanEscape(s: bytes, i: nat, term: seq<byte>)
    requires i < |s| && s[i] !in term && s[i] == BACKSLASH
    ensures i + 1 < |s| ==> Scan(s[i..], term) == Shift(2, [s[i + 1]], Scan(s[i + 2..], term))
    ensures i + 1 == |s| ==> Scan(s[i..], term) == Dangling
  {
    if i + 1 < |s| {
      assert s[i..][2..] == s[i + 2..];
    }
  }

  lemma ShiftTwice(a: nat, u: bytes, b: nat, v: bytes, r: ScanResult)
    ensures Shift(a, u, Shift(b, v, r)) == Shift(a + b, u + v, r)
  {
    if r.Stop? {
      assert u + (v + r.text) == u + v + r.text;
    }
  }

  method IndexUnescaped(s: bytes, term: seq<byte>) returns (r: ScanResult)
    ensures r == Scan(s, term)
  {
    var unesc: bytes := [];
    var i := 0;
    assert s[0..] == s;
    while i < |s|
      invariant 0 <= i <= |s|
      invariant Scan(s, term) == Shift(i, unesc, Scan(s[i..], term))
    {
      var b := s[i];
      if b in term {
        break;
      }
      if b == BACKSLASH {
        ScanEscape(s, i, term);
        i := i + 1;
        if i >= |s| {
          return Dangling;
        }
        b := s[i];
        ShiftTwice(i - 1, unesc, 2, [b], Scan(s[i + 1..], term));
      } else {
        ScanPlain(s, i, term);
        ShiftTwice(i, unesc, 1, [b], Scan(s[i + 1..], term));
      }
      unesc := unesc + [b];
      i := i + 1;
    }
    return Stop(i, unesc);
  }

  function EscapeByte(b: byte, specials: seq<byte>): bytes {
    if b == BACKSLASH || b in specials then [BACKSLASH, b] else [b]
  }

  function Escape(s: bytes, specials: seq<byte>): bytes {
    if s == [] then [] else EscapeByte(s[0], specials) + Escape(s[1..], specials)
  }

  lemma EscapeStep(r: bytes, s: bytes, i: nat, specials: seq<byte>)
    requires i < |s|
    ensures r + Escape(s[i..], specials) == (r + EscapeByte(s[i], specials)) + Escape(s[i + 1..], specials)
  {
    assert s[i..][1..] == s[i + 1..];
    var head, tail := EscapeByte(s[i], specials), Escape(s[i + 1..], specials);
    assert Escape(s[i..], specials) == head + tail;
    hide Escape, EscapeByte;
    assert r + (head + tail) == (r + head) + tail;
  }

  lemma EscapeNothing(r: bytes, s: bytes, specials: seq<byte>)
    ensures r + Escape(s[|s|..], specials) == r
  {
  }

  method BackslashEscape(s: bytes, specials: seq<byte>) returns (r: bytes)
    ensures r == Escape(s, specials)
  {
    r := [];
    assert s[0..] == s && [] + Escape(s, specials) == Escape(s, specials);
    hide Escape;
    for i := 0 to |s|
      invariant r + Escape(s[i..], specials) == Escape(s, specials)
    {
      var b := s[i];
      EscapeStep(r, s, i, specials);
      ghost var next := r + EscapeByte(b, specials);
      if b == BACKSLASH || b in specials {
        r := r + [BACKSLASH];
      }
      r := r + [b];
      assert r == next;
    }
    EscapeNothing(r, s, specials);
  }

  // What "unescaped" means, stated without the scanner: a position is live when an even
  // number of backslashes (byte 92) stands immediately before it.

  ghost function BackslashRun(s: bytes, k: nat): nat
    requires k <= |s|
  {
    if k == 0 || s[k - 1] != 92 then 0 else 1 + BackslashRun(s, k - 1)
  }

  ghost predicate Live(s: bytes, k: nat)
    requires k <= |s|
  {
    BackslashRun(s, k) % 2 == 0
  }

  /** The bytes of s[..k] without the backslashes that introduce an escape. */
  ghost function Literal(s: bytes, k: nat): bytes
    requires k <= |s|
  {
    if k == 0 then []
    else Literal(s, k - 1) + (if s[k - 1] == 92 && Live(s, k - 1) then [] else [s[k - 1]])
  }

  /** The escaped text stands for s, and exactly the backslashes and special bytes in it are escaped. */
  ghost predicate Escapes(r: bytes, s: bytes, specials: seq<byte>) {
    && Live(r, |r|) && Literal(r, |r|) == s
    && (forall k | 0 <= k < |r| && !Live(r, k) :: r[k] == 92 || r[k] in specials)
    && (forall k | 0 <= k < |r| && Live(r, k) && r[k] != 92 :: r[k] !in specials)
  }

  lemma EscapesByte(b: byte, specials: seq<byte>)
    ensures Escapes(EscapeByte(b, specials), [b], specials)
  {
    var r := EscapeByte(b, specials);
    assert Literal(r, 0) == [] && Literal(r, 1) == if r[0] == 92 then [] else [b];
    assert BackslashRun(r, 0) == 0;
  }

  lemma {:induction false} SameBefore(front: bytes, s: bytes, k: nat)
    requires k <= |front|
    ensures BackslashRun(front + s, k) == BackslashRun(front, k) && Literal(front + s, k) == Literal(front, k)
  {
    if k > 0 {
      SameBefore(front, s, k - 1);
    }
  }

  /** A front that ends live does not change what is live behind it. */
  lemma {:induction false} LiveBehind(front: bytes, s: bytes, k: nat)
    requires Live(front, |front|) && k <= |s|
    ensures Live(front + s, |front| + k) == Live(s, k)
  {
    if k == 0 {
      SameBefore(front, s, |front|);
    } else {
      LiveBehind(front, s, k - 1);
      assert (front + s)[|front| + k - 1] == s[k - 1];
    }
  }

  /** Nor the literal text. */
  lemma {:induction false} LiteralBehind(front: bytes, s: bytes, k: nat)
    requires Live(front, |front|) && k <= |s|
    ensures Literal(front + s, |front| + k) == Literal(front, |front|) + Literal(s, k)
  {
    if k == 0 {
      SameBefore(front, s, |front|);
      assert Literal(front, |front|) + [] == Literal(front, |front|);
    } else {
      LiteralBehind(front, s, k - 1);
      LiveBehind(front, s, k - 1);
      assert (front + s)[|front| + k - 1] == s[k - 1];
      hide Live;
    }
  }

  lemma EscapesBoth(r: bytes, s: bytes, q: bytes, t: bytes, specials: seq<byte>)
    requires Escapes(r, s, specials) && Escapes(q, t, specials)
    ensures Escapes(r + q, s + t, specials)
  {
    LiveBehind(r, q, |q|);
    LiteralBehind(r, q, |q|);
    forall k | 0 <= k < |r + q|
      ensures Live(r + q, k) == if k < |r| then Live(r, k) else Live(q, k - |r|)
    {
      if k < |r| {
        SameBefore(r, q, k);
      } else {
        LiveBehind(r, q, k - |r|);
      }
    }
    hide Live, Literal;
  }

  lemma {:induction false} EscapeMeaning(s: bytes, specials: seq<byte>)
    ensures Escapes(Escape(s, specials), s, specials)
  {
    if s != [] {
      EscapeMeaning(s[1..], specials);
      EscapesByte(s[0], specials);
      EscapesBoth(EscapeByte(s[0], specials), [s[0]], Escape(s[1..], specials), s[1..], specials);
      assert s == [s[0]] + s[1..];
      hide Escapes, EscapeByte;
    }
  }

  ghost predicate LiveIn(s: bytes, k: nat, term: seq<byte>) {
    k < |s| && s[k] in term && Live(s, k)
  }

  /** No live terminator in s[i..j]. */
  ghost predicate NoneLive(s: bytes, i: nat, j: nat, term: seq<byte>) {
    forall n | i <= n < j :: !LiveIn(s, n, term)
  }

  /** What the scanner reports when it starts at a live position i. */
  ghost predicate Reports(s: bytes, i: nat, term: seq<byte>, r: ScanResult)
    requires i <= |s|
  {
    match r
    case Dangling => !Live(s, |s|) && NoneLive(s, i, |s|, term)
    case Stop(k, t) =>
      && i + k <= |s| && Live(s, i + k) && (i + k == |s| || s[i + k] in term)
      && NoneLive(s, i, i + k, term)
      && Literal(s, i + k) == Literal(s, i) + t
  }

  lemma LivePlain(s: bytes, i: nat, term: seq<byte>)
    requires i < |s| && s[i] !in term && s[i] != BACKSLASH
    ensures Live(s, i + 1) && NoneLive(s, i, i + 1, term) && Literal(s, i + 1) == Literal(s, i) + [s[i]]
  {
  }

  lemma LiveEscape(s: bytes, i: nat, term: seq<byte>)
    requires i < |s| && Live(s, i) && s[i] == BACKSLASH && BACKSLASH !in term
    ensures !Live(s, i + 1) && NoneLive(s, i, i + 1, term)
    ensures i + 1 < |s| ==> Live(s, i + 2) && NoneLive(s, i, i + 2, term) && Literal(s, i + 2) == Literal(s, i) + [s[i + 1]]
  {
    assert BackslashRun(s, i + 1) == 1 + BackslashRun(s, i);
    assert Literal(s, i + 1) == Literal(s, i) + [];
  }

  lemma ReportsEarlier(s: bytes, i: nat, j: nat, term: seq<byte>, r: ScanResult, text: bytes)
    requires i <= j <= |s| && NoneLive(s, i, j, term)
    requires Literal(s, j) == Literal(s, i) + text
    requires Reports(s, j, term, r)
    ensures Reports(s, i, term, Shift(j - i, text, r))
  {
    hide Live, LiveIn, Literal;
    if r.Stop? {
      assert Literal(s, i) + text + r.text == Literal(s, i) + (text + r.text);
    }
  }

  lemma {:induction false} ScanFrom(s: bytes, i: nat, term: seq<byte>)
    requires i <= |s| && Live(s, i) && BACKSLASH !in term
    ensures Reports(s, i, term, Scan(s[i..], term))
    decreases |s| - i
  {
    if i == |s| || s[i] in term {
      assert Literal(s, i) + [] == Literal(s, i);
    } else if s[i] != BACKSLASH {
      ScanPlain(s, i, term);
      LivePlain(s, i, term);
      hide *;
      ScanFrom(s, i + 1, term);
      ReportsEarlier(s, i, i + 1, term, Scan(s[i + 1..], term), [s[i]]);
    } else {
      ScanEscape(s, i, term);
      LiveEscape(s, i, term);
      if i + 1 < |s| {
        hide *;
        ScanFrom(s, i + 2, term);
        ReportsEarlier(s, i, i + 2, term, Scan(s[i + 2..], term), [s[i + 1]]);
      }
    }
  }

  /** The stopping point is determined by being the first one possible. */
  lemma StopUnique(s: bytes, term: seq<byte>, r: ScanResult, k: nat)
    requires Reports(s, 0, term, r) && k <= |s| && Live(s, k) && (k == |s| || s[k] in term) && NoneLive(s, 0, k, term)
    ensures r == Stop(k, Literal(s, k))
  {
    assert k < |s| ==> LiveIn(s, k, term);
    assert r.Stop? && r.index < |s| ==> LiveIn(s, r.index, term);
    assert Literal(s, 0) == [];
    hide LiveIn, Literal, Live;
  }

  /** The scanner against the declarative reading: it fails exactly on a dangling backslash that no live
      terminator precedes, and otherwise stops at the first live terminator (or the end) with the literal text. */
  lemma ScanMeaning(s: bytes, term: seq<byte>)
    requires BACKSLASH !in term
    ensures Scan(s, term).Dangling? <==> !Live(s, |s|) && NoneLive(s, 0, |s|, term)
    ensures forall k: nat, t | k <= |s| :: Scan(s, term) == Stop(k, t) <==>
      && Live(s, k) && (k == |s| || s[k] in term)
      && NoneLive(s, 0, k, term)
      && t == Literal(s, k)
  {
    assert s[0..] == s && Literal(s, 0) == [] && Live(s, 0);
    var r := Scan(s, term);
    assert r.Stop? ==> Literal(s, 0) + r.text == r.text;
    assert r.Stop? && r.index < |s| && s[r.index] in term && Live(s, r.index) ==> LiveIn(s, r.index, term);
    hide Scan, Live, LiveIn, Literal;
    ScanFrom(s, 0, term);
    forall k: nat, t | k <= |s| && Live(s, k) && (k == |s| || s[k] in term) &&
                       NoneLive(s, 0, k, term) && t == Literal(s, k)
      ensures r == Stop(k, t)
    {
      StopUnique(s, term, r, k);
    }
  }

  lemma EscapeHead(x: bytes, specials: seq<byte>, rest: bytes)
    requires x != []
    ensures |Escape(x, specials)| == |EscapeByte(x[0], specials)| + |Escape(x[1..], specials)|
    ensures Escape(x, specials) + rest == EscapeByte(x[0], specials) + (Escape(x[1..], specials) + rest)
  {
    var head, tail := EscapeByte(x[0], specials), Escape(x[1..], specials);
    assert Escape(x, specials) == head + tail;
    hide Escape, EscapeByte;
    assert (head + tail) + rest == head + (tail + rest);
  }

  lemma ScanConsPlain(c: byte, tail: bytes, term: seq<byte>)
    requires c !in term && c != BACKSLASH
    ensures Scan([c] + tail, term) == Shift(1, [c], Scan(tail, term))
  {
    assert ([c] + tail)[1..] == tail;
  }

  lemma ScanConsEscape(c: byte, tail: bytes, term: seq<byte>)
    requires BACKSLASH !in term
    ensures Scan([BACKSLASH, c] + tail, term) == Shift(2, [c], Scan(tail, term))
  {
    assert ([BACKSLASH, c] + tail)[2..] == tail;
  }

  /** Escaping is undone by scanning, whatever follows the terminator, for text in which every terminator is escaped. */
  lemma {:induction false} ScanEscaped(x: bytes, specials: seq<byte>, term: seq<byte>, rest: bytes)
    requires BACKSLASH !in term && (forall b | b in term :: b in specials || b !in x)
    requires rest == [] || rest[0] in term
    ensures Scan(Escape(x, specials) + rest, term) == Stop(|Escape(x, specials)|, x)
  {
    if x == [] {
      assert Escape(x, specials) + rest == rest;
    } else {
      hide Scan, Escape;
      ScanEscaped(x[1..], specials, term, rest);
      var tail := Escape(x[1..], specials);
      assert [x[0]] + x[1..] == x;
      EscapeHead(x, specials, rest);
      if x[0] == BACKSLASH || x[0] in specials {
        ScanConsEscape(x[0], tail + rest, term);
      } else {
        ScanConsPlain(x[0], tail + rest, term);
      }
    }
  }

  /** Text added behind the stopping point, or starting with a terminator, does not move the stopping point. */
  lemma {:induction false} ScanExtend(s: bytes, more: bytes, term: seq<byte>)
    requires Scan(s, term).Stop?
    requires Scan(s, term).index < |s| || more == [] || more[0] in term
    ensures Scan(s + more, term) == Scan(s, term)
  {
    if s == [] {
      assert s + more == more;
    } else if s[0] in term {
    } else if s[0] != BACKSLASH {
      assert (s + more)[1..] == s[1..] + more;
      ScanExtend(s[1..], more, term);
    } else {
      assert (s + more)[2..] == s[2..] + more;
      ScanExtend(s[2..], more, term);
    }
  }

  /** Whether a position is live does not depend on what stands before an earlier ordinary byte. */
  lemma {:induction false} LiveShift(s: bytes, c: nat, j: nat)
    requires 0 < c && c + j <= |s| && s[c - 1] != BACKSLASH
    ensures BackslashRun(s[c..], j) == BackslashRun(s, c + j)
  {
    if j > 0 {
      LiveShift(s, c, j - 1);
    }
  }
}
