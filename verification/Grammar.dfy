/** Which strings the plugin-option parser of args/args.go accepts, stated without the parser. */
module Grammar {
  import opened Bytes
  import opened ArgsScan
  import opened ArgsCodec

  /** The string is cut into segments at its live separators, the unescaped ones; j starts a segment. */
  ghost predicate SegmentAt(s: bytes, j: nat, sep: byte) {
    j < |s| && (j == 0 || LiveIn(s, j - 1, [sep]))
  }

  /** A segment starts at j and its key is empty. */
  ghost predicate EmptyKeyAt(s: bytes, j: nat, sep: byte) {
    SegmentAt(s, j, sep) && (s[j] == 61 || s[j] == sep)
  }

  ghost predicate KeysFrom(s: bytes, i: nat, sep: byte) {
    forall j | i <= j < |s| :: !EmptyKeyAt(s, j, sep)
  }

  /** What the parser reports about s from the segment at i on. */
  ghost predicate Judges(s: bytes, i: nat, sep: byte, r: Parsed<Pairs>) {
    match r
    case Good(_) => KeysFrom(s, i, sep) && Live(s, |s|)
    case Bad(EmptyKey) => !KeysFrom(s, i, sep)
    case Bad(DanglingEscape) => KeysFrom(s, i, sep) && !Live(s, |s|)
  }

  /** What reading the pair at i reports: the pair ends at the first live separator behind i, or at the end. */
  ghost predicate Reads(s: bytes, i: nat, sep: byte, r: First)
    requires i < |s|
  {
    match r
    case NoPair(EmptyKey) => s[i] == EQUALS || s[i] == sep
    case NoPair(DanglingEscape) => s[i] != EQUALS && s[i] != sep && NoneLive(s, i, |s|, [sep]) && !Live(s, |s|)
    case Pair(_, n) =>
      && s[i] != EQUALS && s[i] != sep && i + n <= |s| && Live(s, i + n) && NoneLive(s, i, i + n, [sep])
      && (i + n < |s| ==> s[i + n] == sep)
  }

  /** Fewer terminators, fewer live ones. */
  lemma FewerLive(s: bytes, i: nat, j: nat, sep: byte)
    requires NoneLive(s, i, j, [EQUALS, sep])
    ensures NoneLive(s, i, j, [sep])
  {
    hide Live;
    forall n | i <= n < j
      ensures !LiveIn(s, n, [sep])
    {
      assert !LiveIn(s, n, [EQUALS, sep]);
    }
  }

  lemma NoneLiveJoin(s: bytes, i: nat, k: nat, j: nat, sep: byte)
    requires i <= k < j && NoneLive(s, i, k, [sep]) && NoneLive(s, k + 1, j, [sep]) && k < |s| && s[k] != sep
    ensures NoneLive(s, i, j, [sep])
  {
  }

  lemma StopsAtOnce(s: bytes, i: nat, term: seq<byte>)
    requires i < |s|
    ensures Scan(s[i..], term) == Stop(0, []) <==> s[i] in term
  {
  }

  lemma ValueOf(s: bytes, sep: byte)
    requires s != [] && Scan(s, [EQUALS, sep]).Stop? && Scan(s, [EQUALS, sep]).text != []
    requires Scan(s, [EQUALS, sep]).index < |s| && s[Scan(s, [EQUALS, sep]).index] == EQUALS
    ensures var key := Scan(s, [EQUALS, sep]);
      FirstPair(s, sep) == WithValue(key.text, key.index + 1, Scan(s[key.index + 1..], [sep]))
  {
    hide Scan, WithValue;
  }

  /** Scanning for the end of the value whose equals sign is at e. */
  lemma ValueEnds(s: bytes, i: nat, sep: byte, e: nat)
    requires Separator(sep) && i <= e < |s| && s[e] == EQUALS && NoneLive(s, i, e, [sep])
    ensures match Scan(s[e + 1..], [sep])
      case Dangling => NoneLive(s, i, |s|, [sep]) && !Live(s, |s|)
      case Stop(m, _) =>
        && e + 1 + m <= |s| && NoneLive(s, i, e + 1 + m, [sep]) && Live(s, e + 1 + m)
        && (e + 1 + m < |s| ==> s[e + 1 + m] == sep)
  {
    ScanFrom(s, e + 1, [sep]);
    var scan := Scan(s[e + 1..], [sep]);
    hide Scan, Live, LiveIn, Literal;
    NoneLiveJoin(s, i, e, if scan.Stop? then e + 1 + scan.index else |s|, sep);
  }

  lemma ReadsValue(s: bytes, i: nat, sep: byte, k: nat)
    requires Separator(sep) && i + k < |s| && s[i + k] == EQUALS && 0 < k
    requires Scan(s[i..], [EQUALS, sep]).Stop? && Scan(s[i..], [EQUALS, sep]).index == k
    requires NoneLive(s, i, i + k, [EQUALS, sep]) && s[i] !in [EQUALS, sep]
    ensures Reads(s, i, sep, FirstPair(s[i..], sep))
  {
    hide Scan, Live, LiveIn, NoneLive, FirstPair, Separator;
    FewerLive(s, i, i + k, sep);
    ValueOf(s[i..], sep);
    ValueEnds(s, i, sep, i + k);
    assert s[i..][k + 1..] == s[i + k + 1..];
  }

  /** Scanning for the end of the key at i. */
  lemma KeyEnds(s: bytes, i: nat, sep: byte)
    requires Separator(sep) && i < |s| && Live(s, i)
    ensures match Scan(s[i..], [EQUALS, sep])
      case Dangling => s[i] !in [EQUALS, sep] && NoneLive(s, i, |s|, [sep]) && !Live(s, |s|)
      case Stop(k, _) =>
        && i + k <= |s| && (k == 0 <==> s[i] in [EQUALS, sep]) && Live(s, i + k)
        && NoneLive(s, i, i + k, [EQUALS, sep]) && NoneLive(s, i, i + k, [sep])
        && (i + k < |s| ==> s[i + k] in [EQUALS, sep])
  {
    ScanFrom(s, i, [EQUALS, sep]);
    StopsAtOnce(s, i, [EQUALS, sep]);
    var scan := Scan(s[i..], [EQUALS, sep]);
    hide Scan, Live, LiveIn, Literal, NoneLive;
    FewerLive(s, i, if scan.Stop? then i + scan.index else |s|, sep);
  }

  lemma ReadsPair(s: bytes, i: nat, sep: byte)
    requires Separator(sep) && i < |s| && Live(s, i)
    ensures Reads(s, i, sep, FirstPair(s[i..], sep))
  {
    hide Scan, Live, NoneLive;
    KeyEnds(s, i, sep);
    var scan := Scan(s[i..], [EQUALS, sep]);
    if scan.Stop? && 0 < scan.index && i + scan.index < |s| && s[i + scan.index] == EQUALS {
      hide FirstPair, Reads;
      ReadsValue(s, i, sep, scan.index);
    }
  }

  lemma NextSegment(s: bytes, i: nat, e: nat, sep: byte)
    requires i <= e <= |s| && NoneLive(s, i, e, [sep]) && !EmptyKeyAt(s, i, sep)
    ensures KeysFrom(s, i, sep) <==> KeysFrom(s, e + 1, sep)
  {
    forall j | i <= j < |s| && j <= e
      ensures !EmptyKeyAt(s, j, sep)
    {
      assert j > i ==> !LiveIn(s, j - 1, [sep]);
    }
  }

  lemma JudgesNext(s: bytes, i: nat, sep: byte, p: (bytes, bytes), n: nat, r: Parsed<Pairs>)
    requires i < |s| && Reads(s, i, sep, Pair(p, n)) && (if i + n < |s| then Judges(s, i + n + 1, sep, r) else r == Good([]))
    ensures Judges(s, i, sep, Then([p], r))
  {
    assert !EmptyKeyAt(s, i, sep);
    hide Live, LiveIn, SegmentAt, EmptyKeyAt;
    NextSegment(s, i, i + n, sep);
  }

  lemma JudgesError(s: bytes, i: nat, sep: byte, e: ParseError)
    requires i < |s| && SegmentAt(s, i, sep) && Reads(s, i, sep, NoPair(e))
    ensures Judges(s, i, sep, Bad(e))
  {
    if e == EmptyKey {
      assert EmptyKeyAt(s, i, sep);
    } else {
      hide Live, LiveIn;
      NextSegment(s, i, |s|, sep);
    }
  }

  lemma SegmentBehind(s: bytes, i: nat, sep: byte, p: (bytes, bytes), n: nat)
    requires Separator(sep) && i + n < |s| && Reads(s, i, sep, Pair(p, n))
    ensures Live(s, i + n + 1) && (i + n + 1 < |s| ==> SegmentAt(s, i + n + 1, sep))
  {
    assert LiveIn(s, i + n, [sep]);
  }

  lemma Judged(s: bytes, i: nat, sep: byte)
    requires i <= |s|
    ensures i == |s| && Live(s, i) ==> Judges(s, i, sep, ParsePairs(s[i..], sep))
    ensures i < |s| && FirstPair(s[i..], sep).NoPair? ==> ParsePairs(s[i..], sep) == Bad(FirstPair(s[i..], sep).error)
  {
    hide Live, FirstPair;
  }

  lemma ParseSegment(s: bytes, i: nat, sep: byte, p: (bytes, bytes), n: nat)
    requires i < |s| && FirstPair(s[i..], sep) == Pair(p, n) && Reads(s, i, sep, Pair(p, n))
    ensures ParsePairs(s[i..], sep) == Then([p], ParsePairs(if i + n < |s| then s[i + n + 1..] else [], sep))
  {
    NextPair(s[i..], p, n, sep);
    assert i + n < |s| ==> s[i..][n + 1..] == s[i + n + 1..];
  }

  lemma JudgesPair(s: bytes, i: nat, sep: byte, p: (bytes, bytes), n: nat)
    requires i < |s| && FirstPair(s[i..], sep) == Pair(p, n) && Reads(s, i, sep, Pair(p, n))
    requires i + n < |s| ==> Judges(s, i + n + 1, sep, ParsePairs(s[i + n + 1..], sep))
    ensures Judges(s, i, sep, ParsePairs(s[i..], sep))
  {
    ParseSegment(s, i, sep, p, n);
    assert ParsePairs([], sep) == Good([]);
    hide ParsePairs, FirstPair, Reads, Judges;
    JudgesNext(s, i, sep, p, n, ParsePairs(if i + n < |s| then s[i + n + 1..] else [], sep));
  }

  lemma JudgesNoPair(s: bytes, i: nat, sep: byte, e: ParseError)
    requires i < |s| && FirstPair(s[i..], sep) == NoPair(e) && Reads(s, i, sep, NoPair(e)) && SegmentAt(s, i, sep)
    ensures Judges(s, i, sep, ParsePairs(s[i..], sep))
  {
    Judged(s, i, sep);
    hide ParsePairs, FirstPair, Reads, Judges;
    JudgesError(s, i, sep, e);
  }

  lemma {:induction false} ParseJudges(s: bytes, i: nat, sep: byte)
    requires Separator(sep) && i <= |s| && Live(s, i) && (i < |s| ==> SegmentAt(s, i, sep))
    ensures Judges(s, i, sep, ParsePairs(s[i..], sep))
    decreases |s| - i
  {
    hide *;
    if i == |s| {
      Judged(s, i, sep);
    } else {
      ReadsPair(s, i, sep);
      match FirstPair(s[i..], sep)
      case NoPair(e) => JudgesNoPair(s, i, sep, e);
      case Pair(p, n) =>
        if i + n < |s| {
          SegmentBehind(s, i, sep, p, n);
          ParseJudges(s, i + n + 1, sep);
        }
        JudgesPair(s, i, sep, p, n);
    }
  }

  lemma VerdictOf(s: bytes, sep: byte)
    requires Judges(s, 0, sep, ParsePairs(s, sep))
    ensures Parse(s, sep).Good? <==> Live(s, |s|) && KeysFrom(s, 0, sep)
    ensures Parse(s, sep) == Bad(EmptyKey) <==> !KeysFrom(s, 0, sep)
    ensures Parse(s, sep) == Bad(DanglingEscape) <==> !Live(s, |s|) && KeysFrom(s, 0, sep)
  {
    hide Live, ParsePairs, KeysFrom, Collect;
  }

  lemma KeysEverywhere(s: bytes, sep: byte)
    ensures KeysFrom(s, 0, sep) <==> forall j: nat :: !EmptyKeyAt(s, j, sep)
  {
    hide LiveIn;
  }

  /** A string is accepted exactly when no segment has an empty key and the last backslash is not dangling; the
      empty key is the error that is reported when there are both. */
  lemma ParseAccepts(s: bytes, sep: byte)
    requires Separator(sep)
    ensures Parse(s, sep).Good? <==> Live(s, |s|) && forall j: nat :: !EmptyKeyAt(s, j, sep)
    ensures Parse(s, sep) == Bad(EmptyKey) <==> exists j: nat :: EmptyKeyAt(s, j, sep)
    ensures Parse(s, sep) == Bad(DanglingEscape) <==> !Live(s, |s|) && forall j: nat :: !EmptyKeyAt(s, j, sep)
  {
    assert Live(s, 0) && s[0..] == s;
    hide *;
    ParseJudges(s, 0, sep);
    VerdictOf(s, sep);
    KeysEverywhere(s, sep);
  }

  // ----- The pairs -----

  /** s[i..e] is a whole segment: it ends in front of the next live separator, or at the end of s. */
  ghost predicate IsSegment(s: bytes, i: nat, e: nat, sep: byte) {
    SegmentAt(s, i, sep) && i <= e <= |s| && NoneLive(s, i, e, [sep]) && (e == |s| || LiveIn(s, e, [sep]))
  }

  ghost predicate EqualsAt(s: bytes, i: nat, q: nat, e: nat) {
    i <= q < e <= |s| && LiveIn(s, q, [61]) && NoneLive(s, i, q, [61])
  }

  /** The pair of a segment: the literal text in front of its first live equals sign and the one behind it, or all of it
      and the text "1" if there is no such sign. */
  ghost predicate PairIn(s: bytes, i: nat, e: nat, p: (bytes, bytes))
    requires i <= e <= |s|
  {
    || (NoneLive(s, i, e, [61]) && Literal(s, e) == Literal(s, i) + p.0 && p.1 == [49])
    || exists q: nat :: EqualsAt(s, i, q, e) && Literal(s, q) == Literal(s, i) + p.0 && Literal(s, e) == Literal(s, q + 1) + p.1
  }

  lemma NoEqualsLive(s: bytes, i: nat, j: nat, sep: byte)
    requires NoneLive(s, i, j, [EQUALS, sep])
    ensures NoneLive(s, i, j, [61])
  {
    hide Live;
    forall n | i <= n < j
      ensures !LiveIn(s, n, [61])
    {
      assert !LiveIn(s, n, [EQUALS, sep]);
    }
  }

  /** The two scans give the pair of the segment. */
  lemma KeyText(s: bytes, i: nat, sep: byte)
    requires Separator(sep) && i < |s| && Live(s, i) && Scan(s[i..], [EQUALS, sep]).Stop?
    ensures var k := Scan(s[i..], [EQUALS, sep]).index;
      && i + k <= |s| && NoneLive(s, i, i + k, [61])
      && Literal(s, i + k) == Literal(s, i) + Scan(s[i..], [EQUALS, sep]).text
      && (i + k < |s| && s[i + k] == EQUALS ==> LiveIn(s, i + k, [61]) && Live(s, i + k + 1))
  {
    ScanFrom(s, i, [EQUALS, sep]);
    var k := Scan(s[i..], [EQUALS, sep]).index;
    assert i + k < |s| && s[i + k] == EQUALS ==> Live(s, i + k + 1);
    hide Scan, Live, Literal;
    NoEqualsLive(s, i, i + k, sep);
  }

  lemma ValueText(s: bytes, c: nat, sep: byte)
    requires Separator(sep) && c <= |s| && Live(s, c) && Scan(s[c..], [sep]).Stop?
    ensures var m := Scan(s[c..], [sep]).index;
      c + m <= |s| && Literal(s, c + m) == Literal(s, c) + Scan(s[c..], [sep]).text
  {
    ScanFrom(s, c, [sep]);
    hide Scan, Live, Literal;
  }

  lemma PairText(s: bytes, i: nat, sep: byte, p: (bytes, bytes), n: nat)
    requires Separator(sep) && i < |s| && Live(s, i) && FirstPair(s[i..], sep) == Pair(p, n)
    ensures i + n <= |s| && PairIn(s, i, i + n, p)
  {
    hide Scan, Live, LiveIn, NoneLive, Literal, Separator;
    KeyText(s, i, sep);
    var k := Scan(s[i..], [EQUALS, sep]).index;
    if i + k < |s| && s[i + k] == EQUALS {
      ValueText(s, i + k + 1, sep);
      assert s[i..][k + 1..] == s[i + k + 1..];
      assert EqualsAt(s, i, i + k, i + n);
    }
  }

  /** What has been read from the segment at i on: the segments and their pairs, in order. */
  ghost predicate Lists(s: bytes, i: nat, sep: byte, starts: seq<nat>, ends: seq<nat>, ps: Pairs) {
    && |starts| == |ends| == |ps|
    && (forall n | 0 <= n < |ps| ::
          i <= starts[n] && IsSegment(s, starts[n], ends[n], sep) && PairIn(s, starts[n], ends[n], ps[n]))
    && (forall m, n | 0 <= m < n < |ps| :: starts[m] < starts[n])
    && (forall j | i <= j < |s| && SegmentAt(s, j, sep) :: j in starts)
  }

  lemma NotInside(s: bytes, i: nat, e: nat, j: nat, sep: byte)
    requires NoneLive(s, i, e, [sep]) && i < j && SegmentAt(s, j, sep)
    ensures j > e
  {
    hide Live;
  }

  lemma ListsOne(s: bytes, i: nat, sep: byte, p: (bytes, bytes), n: nat, starts: seq<nat>, ends: seq<nat>, ps: Pairs)
    requires i < |s| && IsSegment(s, i, i + n, sep) && PairIn(s, i, i + n, p)
    requires Lists(s, i + n + 1, sep, starts, ends, ps)
    ensures Lists(s, i, sep, [i] + starts, [i + n] + ends, [p] + ps)
  {
    hide PairIn, Live, LiveIn;
    forall j | i < j < |s| && SegmentAt(s, j, sep)
      ensures j in starts
    {
      NotInside(s, i, i + n, j, sep);
    }
    hide SegmentAt, NoneLive, IsSegment;
  }

  lemma ListsNone(s: bytes, i: nat, sep: byte)
    requires i >= |s|
    ensures Lists(s, i, sep, [], [], [])
  {
  }

  lemma SegmentRead(s: bytes, i: nat, sep: byte, p: (bytes, bytes), n: nat)
    requires Separator(sep) && i < |s| && SegmentAt(s, i, sep) && Reads(s, i, sep, Pair(p, n))
    ensures IsSegment(s, i, i + n, sep)
  {
  }

  lemma NothingLeft(s: bytes, sep: byte)
    ensures ParsePairs(s[|s|..], sep) == Good([])
  {
  }

  lemma FirstGood(s: bytes, i: nat, sep: byte) returns (p: (bytes, bytes), n: nat)
    requires Separator(sep) && i < |s| && Live(s, i) && ParsePairs(s[i..], sep).Good?
    ensures FirstPair(s[i..], sep) == Pair(p, n) && i + n <= |s|
    ensures i + n >= |s| ==> ParsePairs(s[i..], sep) == Good([p] + [])
    ensures i + n < |s| ==> ParsePairs(s[i + n + 1..], sep).Good?
    ensures i + n < |s| ==> ParsePairs(s[i..], sep).value == [p] + ParsePairs(s[i + n + 1..], sep).value
  {
    p, n := FirstPair(s[i..], sep).pair, FirstPair(s[i..], sep).end;
    NothingLeft([], sep);
    hide Live, FirstPair;
    ReadsPair(s, i, sep);
    ParseSegment(s, i, sep, p, n);
    hide ParsePairs, Reads;
  }

  lemma {:induction false} ListFrom(s: bytes, i: nat, sep: byte) returns (starts: seq<nat>, ends: seq<nat>)
    requires Separator(sep) && i <= |s| && Live(s, i) && (i < |s| ==> SegmentAt(s, i, sep)) && ParsePairs(s[i..], sep).Good?
    ensures Lists(s, i, sep, starts, ends, ParsePairs(s[i..], sep).value)
    decreases |s| - i
  {
    hide *;
    starts, ends := [], [];
    if i == |s| {
      ListsNone(s, i, sep);
      NothingLeft(s, sep);
    } else {
      var p, n := FirstGood(s, i, sep);
      ReadsPair(s, i, sep);
      PairText(s, i, sep, p, n);
      SegmentRead(s, i, sep, p, n);
      if i + n < |s| {
        SegmentBehind(s, i, sep, p, n);
        starts, ends := ListFrom(s, i + n + 1, sep);
        ListsOne(s, i, sep, p, n, starts, ends, ParsePairs(s[i + n + 1..], sep).value);
      } else {
        ListsNone(s, i + n + 1, sep);
        ListsOne(s, i, sep, p, n, [], [], []);
      }
      starts, ends := [i] + starts, [i + n] + ends;
    }
  }

  /** The pairs of an accepted string are its segments in order: `starts` lists exactly the positions where a segment
      starts, ascending, and each pair is the one of its segment. */
  lemma ParseReads(s: bytes, sep: byte) returns (starts: seq<nat>, ends: seq<nat>)
    requires Separator(sep) && ParsePairs(s, sep).Good?
    ensures var ps := ParsePairs(s, sep).value;
      && |starts| == |ends| == |ps|
      && (forall n | 0 <= n < |ps| :: IsSegment(s, starts[n], ends[n], sep) && PairIn(s, starts[n], ends[n], ps[n]))
      && (forall m, n | 0 <= m < n < |ps| :: starts[m] < starts[n])
      && (forall j: nat :: SegmentAt(s, j, sep) ==> j in starts)
  {
    assert Live(s, 0) && s[0..] == s && (0 < |s| ==> SegmentAt(s, 0, sep));
    hide Live, LiveIn, NoneLive, PairIn, ParsePairs, Separator;
    starts, ends := ListFrom(s, 0, sep);
  }
}
