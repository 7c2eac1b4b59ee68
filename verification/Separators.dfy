/** args/args.go uses two separators: the encoder joins pairs with ',' and escapes '=' and ',', while the parser splits
    at ';'. When does the parser nevertheless read back what the encoder wrote? */
module Separators {
  import opened Bytes
  import opened ArgsScan
  import opened ArgsCodec
  import Order

  // ----- Counting a byte that the parser cannot lose -----

  function Count(s: bytes, b: byte): nat {
    if s == [] then 0 else (if s[0] == b then 1 else 0) + Count(s[1..], b)
  }

  function HeldIn(p: (bytes, bytes), b: byte): nat {
    Count(p.0, b) + Count(p.1, b)
  }

  /** How often b occurs in the keys and values of the pairs. */
  function Held(ps: Pairs, b: byte): nat {
    if ps == [] then 0 else HeldIn(ps[0], b) + Held(ps[1..], b)
  }

  lemma CountCons(c: byte, tail: bytes, b: byte)
    ensures Count([c] + tail, b) == (if c == b then 1 else 0) + Count(tail, b)
  {
    assert ([c] + tail)[1..] == tail;
  }

  lemma {:induction false} CountAppend(a: bytes, c: bytes, b: byte)
    ensures Count(a + c, b) == Count(a, b) + Count(c, b)
  {
    if a == [] {
      assert a + c == c;
    } else {
      CountAppend(a[1..], c, b);
      assert (a + c)[1..] == a[1..] + c;
    }
  }

  lemma {:induction false} HeldAppend(a: Pairs, c: Pairs, b: byte)
    ensures Held(a + c, b) == Held(a, b) + Held(c, b)
  {
    if a == [] {
      assert a + c == c;
    } else {
      HeldAppend(a[1..], c, b);
      assert (a + c)[1..] == a[1..] + c;
    }
  }

  lemma CountSkip(s: bytes, k: nat, b: byte)
    requires k < |s| && s[k] != b
    ensures Count(s[k..], b) == Count(s[k + 1..], b)
  {
    assert s[k..][1..] == s[k + 1..];
  }

  lemma CountEnd(s: bytes, n: nat, sep: byte, b: byte)
    requires n <= |s| && (n < |s| ==> s[n] == sep) && b != sep
    ensures Count(s[n..], b) == Count(From(s, n + 1), b)
  {
    if n < |s| {
      CountSkip(s, n, b);
    }
  }

  /** The scanner drops nothing but the backslashes that introduce an escape. */
  lemma {:induction false} ScanCounts(s: bytes, term: seq<byte>, b: byte)
    requires b != BACKSLASH && Scan(s, term).Stop?
    ensures Count(s, b) == Count(Scan(s, term).text, b) + Count(s[Scan(s, term).index..], b)
  {
    var r := Scan(s, term);
    if r.index == 0 {
      assert s[0..] == s;
    } else if s[0] != BACKSLASH {
      ScanCounts(s[1..], term, b);
      CountCons(s[0], Scan(s[1..], term).text, b);
      assert s[r.index..] == s[1..][Scan(s[1..], term).index..];
    } else {
      ScanCounts(s[2..], term, b);
      CountCons(s[1], Scan(s[2..], term).text, b);
      assert s[1..][1..] == s[2..] && s[r.index..] == s[2..][Scan(s[2..], term).index..];
    }
  }

  /** Reading a pair and skipping its separator loses no other byte than backslashes, '=' and the separator. */
  lemma FirstPairCounts(s: bytes, sep: byte, b: byte)
    requires Separator(sep) && s != [] && FirstPair(s, sep).Pair? && b != BACKSLASH && b != EQUALS && b != sep
    ensures Count(s, b) <= HeldIn(FirstPair(s, sep).pair, b) + Count(From(s, FirstPair(s, sep).end + 1), b)
  {
    assert sep != BACKSLASH && sep != EQUALS && HeldIn(FirstPair(s, sep).pair, b) ==
           Count(FirstPair(s, sep).pair.0, b) + Count(FirstPair(s, sep).pair.1, b);
    hide Scan, Count, HeldIn, EndsInSeparator, Live;
    FirstPairEnd(s, sep);
    var k, n := Scan(s, [EQUALS, sep]).index, FirstPair(s, sep).end;
    ScanCounts(s, [EQUALS, sep], b);
    if k < |s| && s[k] == EQUALS {
      CountSkip(s, k, b);
      ScanCounts(s[k + 1..], [sep], b);
      assert s[k + 1..][n - k - 1..] == s[n..];
    }
    CountEnd(s, n, sep, b);
  }

  lemma {:induction false} ParseCounts(s: bytes, sep: byte, b: byte)
    requires Separator(sep) && ParsePairs(s, sep).Good? && b != BACKSLASH && b != EQUALS && b != sep
    ensures Count(s, b) <= Held(ParsePairs(s, sep).value, b)
    decreases |s|
  {
    if s != [] {
      var p, n := FirstPair(s, sep).pair, FirstPair(s, sep).end;
      NextPair(s, p, n, sep);
      var rest := ParsePairs(From(s, n + 1), sep);
      FirstPairCounts(s, sep, b);
      ParseCounts(From(s, n + 1), sep, b);
      assert ([p] + rest.value)[1..] == rest.value;
      hide FirstPair, HeldIn;
    }
  }

  lemma {:induction false} EscapeCounts(x: bytes, specials: seq<byte>, b: byte)
    requires b != BACKSLASH
    ensures Count(Escape(x, specials), b) == Count(x, b)
  {
    if x != [] {
      var tail := Escape(x[1..], specials);
      EscapeCounts(x[1..], specials, b);
      CountCons(x[0], tail, b);
      CountCons(BACKSLASH, [x[0]] + tail, b);
      assert [BACKSLASH, x[0]] + tail == [BACKSLASH] + ([x[0]] + tail);
    }
  }

  lemma EncodeCounts(p: (bytes, bytes), sep: byte)
    requires Separator(sep)
    ensures Count(EncodePair(p, sep), sep) == HeldIn(p, sep)
  {
    var k, v := Escape(p.0, [EQUALS, sep]), Escape(p.1, [EQUALS, sep]);
    EscapeCounts(p.0, [EQUALS, sep], sep);
    EscapeCounts(p.1, [EQUALS, sep], sep);
    hide Escape, Count;
    assert EncodePair(p, sep) == k + ([EQUALS] + v);
    CountAppend(k, [EQUALS] + v, sep);
    CountCons(EQUALS, v, sep);
  }

  /** The encoder writes every byte of the pairs, and its separator once more between any two of them. */
  lemma {:induction false} JoinCounts(ps: Pairs, sep: byte)
    requires Separator(sep)
    ensures ps != [] ==> Count(JoinPairs(ps, sep), sep) == Held(ps, sep) + |ps| - 1
  {
    if ps != [] {
      EncodeCounts(ps[0], sep);
      JoinCounts(ps[1..], sep);
      if |ps| > 1 {
        var head, tail := EncodePair(ps[0], sep), JoinPairs(ps[1..], sep);
        assert JoinPairs(ps, sep) == head + ([sep] + tail);
        hide EncodePair, Count, HeldIn, JoinPairs;
        CountAppend(head, [sep] + tail, sep);
        CountCons(sep, tail, sep);
      }
    }
  }

  // ----- The pairs of a multimap, in any order -----

  lemma {:induction false} CountSelect(ps: Pairs, key: bytes, value: bytes)
    ensures multiset(Select(ps, key))[value] == multiset(ps)[(key, value)]
  {
    if ps != [] {
      CountSelect(ps[1..], key, value);
      assert ps == [ps[0]] + ps[1..];
      assert Select(ps, key) == (if ps[0].0 == key then [ps[0].1] else []) + Select(ps[1..], key);
      hide Select;
    }
  }

  /** Two lists of pairs with the same values for every key are permutations of each other. */
  lemma SamePairs(a: Pairs, c: Pairs)
    requires forall key :: Select(a, key) == Select(c, key)
    ensures multiset(a) == multiset(c)
  {
    forall p: (bytes, bytes)
      ensures multiset(a)[p] == multiset(c)[p]
    {
      CountSelect(a, p.0, p.1);
      CountSelect(c, p.0, p.1);
    }
  }

  function Without(c: Pairs, i: nat): Pairs
    requires i < |c|
  {
    c[..i] + c[i + 1..]
  }

  lemma TakeOut(c: Pairs, p: (bytes, bytes), b: byte) returns (i: nat)
    requires p in multiset(c)
    ensures i < |c| && multiset(c) == multiset{p} + multiset(Without(c, i))
    ensures Held(c, b) == HeldIn(p, b) + Held(Without(c, i), b)
  {
    i :| 0 <= i < |c| && c[i] == p;
    var front, back := c[..i], c[i + 1..];
    assert ([p] + back)[1..] == back;
    assert c == front + ([p] + back);
    HeldAppend(front, back, b);
    HeldAppend(front, [p] + back, b);
    hide HeldIn;
  }

  lemma TakeHead(a: Pairs, b: byte)
    requires a != []
    ensures multiset(a) == multiset{a[0]} + multiset(a[1..]) && Held(a, b) == HeldIn(a[0], b) + Held(a[1..], b)
  {
    assert a == [a[0]] + a[1..];
    hide HeldIn;
  }

  lemma Cancel(p: (bytes, bytes), a: multiset<(bytes, bytes)>, c: multiset<(bytes, bytes)>)
    requires multiset{p} + a == multiset{p} + c
    ensures a == c
  {
    assert a == (multiset{p} + a) - multiset{p} && c == (multiset{p} + c) - multiset{p};
  }

  lemma {:induction false} SameHeld(a: Pairs, c: Pairs, b: byte)
    requires multiset(a) == multiset(c)
    ensures Held(a, b) == Held(c, b)
    decreases |a|
  {
    if a == [] {
      assert |c| == |multiset(c)| == 0;
    } else {
      TakeHead(a, b);
      assert a[0] in multiset(c);
      hide *;
      var i := TakeOut(c, a[0], b);
      Cancel(a[0], multiset(a[1..]), multiset(Without(c, i)));
      SameHeld(a[1..], Without(c, i), b);
    }
  }

  /** Pairs that collect to a multimap are its pairs, in some order. */
  lemma PairsOf(args: Args, keys: seq<bytes>, ps: Pairs)
    requires Enumerates(keys, args) && Collect(ps) == args
    ensures multiset(ps) == multiset(Flatten(args, keys))
  {
    forall key
      ensures Select(ps, key) == Select(Flatten(args, keys), key)
    {
      CollectMeaning(ps, key);
      SelectFlatten(args, keys, key);
    }
    SamePairs(ps, Flatten(args, keys));
  }

  // ----- A pair that contains the parser's separator -----

  lemma {:induction false} EscapeAppend(a: bytes, c: bytes, specials: seq<byte>)
    ensures Escape(a + c, specials) == Escape(a, specials) + Escape(c, specials)
  {
    if a == [] {
      assert a + c == c;
    } else {
      EscapeAppend(a[1..], c, specials);
      assert (a + c)[1..] == a[1..] + c;
      EscapeHead(a + c, specials, []);
      EscapeHead(a, specials, Escape(c, specials));
      hide Escape, EscapeByte;
      assert Escape(a + c, specials) + [] == Escape(a + c, specials);
      assert Escape(a[1..] + c, specials) + [] == Escape(a[1..] + c, specials);
    }
  }

  lemma {:induction false} FirstOf(x: bytes, b: byte) returns (n: nat)
    requires b in x
    ensures n < |x| && x[n] == b && b !in x[..n]
  {
    if x[0] == b {
      n := 0;
    } else {
      n := FirstOf(x[1..], b);
      n := n + 1;
      assert x[..n] == [x[0]] + x[1..][..n - 1];
    }
  }

  /** x up to its first b, which the encoder leaves unescaped. */
  lemma CutAt(x: bytes, specials: seq<byte>, b: byte) returns (front: bytes, rest: bytes)
    requires b in x && b !in specials && b != BACKSLASH
    ensures b !in front && front < x && rest != [] && rest[0] == b
    ensures Escape(x, specials) == Escape(front, specials) + rest
  {
    var n := FirstOf(x, b);
    front := x[..n];
    rest := Escape(x[n..], specials);
    assert x == x[..n] + x[n..];
    EscapeAppend(front, x[n..], specials);
  }

  /** The parser cuts such a pair short. */
  lemma CutShort(p: (bytes, bytes), enc: byte, sep: byte)
    requires Separator(enc) && Separator(sep) && enc != sep && p.0 != [] && (sep in p.0 || sep in p.1)
    ensures var first := FirstPair(EncodePair(p, enc), sep); first.Pair? ==> first.pair != p
  {
    var specials := [EQUALS, enc];
    if sep in p.0 {
      var front, rest := CutAt(p.0, specials, sep);
      var more := rest + [EQUALS] + Escape(p.1, specials);
      assert EncodePair(p, enc) == Escape(front, specials) + more;
      ScanEscaped(front, specials, [EQUALS, sep], more);
    } else {
      var front, rest := CutAt(p.1, specials, sep);
      assert EncodePair(p, enc) == EncodePair((p.0, front), enc) + rest;
      FirstEncoded((p.0, front), enc, sep, rest);
    }
  }

  lemma ReadBack(ps: Pairs, s: bytes, args: Args, keys: seq<bytes>)
    requires Enumerates(keys, args) && WellFormed(args) && ps == Flatten(args, keys) && s == JoinPairs(ps, COMMA)
    requires Parse(s, SEMICOLON) == Good(args)
    ensures |ps| <= 1 && forall p | p in ps :: SEMICOLON !in p.0 && SEMICOLON !in p.1
  {
    var qs := ParsePairs(s, SEMICOLON).value;
    CollectFlatten(args, keys);
    PairsOf(args, keys, qs);
    SameHeld(qs, ps, COMMA);
    ParseCounts(s, SEMICOLON, COMMA);
    JoinCounts(ps, COMMA);
    if ps != [] {
      assert |multiset(qs)| == |multiset(ps)| == 1;
      assert qs[0] in multiset(ps);
      if SEMICOLON in ps[0].0 || SEMICOLON in ps[0].1 {
        CutShort(ps[0], COMMA, SEMICOLON);
        assert false;
      }
    }
  }

  /** The parser reads what the encoder wrote, with each side's own separator, exactly for multimaps that are well formed,
      hold at most one pair, and do not contain a semicolon. With two pairs the comma between them ends up inside a key
      or a value; a semicolon, which the encoder does not escape, ends the pair early. */
  lemma SourceRoundTrip(args: Args, keys: seq<bytes>)
    requires Enumerates(keys, args)
    ensures Parse(EncodeIn(args, keys, COMMA), SEMICOLON) == Good(args) <==>
      && WellFormed(args) && |Flatten(args, keys)| <= 1
      && forall p | p in Flatten(args, keys) :: SEMICOLON !in p.0 && SEMICOLON !in p.1
  {
    var ps := Flatten(args, keys);
    var s := EncodeIn(args, keys, COMMA);
    CollectFlatten(args, keys);
    if Parse(s, SEMICOLON) == Good(args) {
      ParseWellFormed(s, SEMICOLON);
      ReadBack(ps, s, args, keys);
    } else if WellFormed(args) && |ps| == 1 && SEMICOLON !in ps[0].0 && SEMICOLON !in ps[0].1 {
      FirstEncoded(ps[0], COMMA, SEMICOLON, []);
      assert s + [] == s;
      NextPair(s, ps[0], |s|, SEMICOLON);
    }
  }

  lemma OnePair(args: Args, keys: seq<bytes>, key: bytes, value: bytes)
    requires Enumerates(keys, args) && key in args && args[key] == [value]
    ensures (key, value) in Flatten(args, keys)
  {
    SelectFlatten(args, keys, key);
    CountSelect(Flatten(args, keys), key, value);
    hide Select, Flatten;
    assert multiset([value])[value] == 1;
    assert (key, value) in multiset(Flatten(args, keys));
  }

  /** The source's two functions do not invert each other, even on a single pair: the value of a=; is lost. */
  lemma SourceSeparatorsDiffer()
    ensures exists args: Args :: WellFormed(args) && Parse(Encode(args, COMMA), SEMICOLON) != Good(args)
  {
    var key: bytes, value: bytes := [97], [SEMICOLON];
    var args: Args := map[key := [value]];
    var keys := Order.Sorted(args.Keys);
    Order.SortedEnumerates(args.Keys);
    hide Parse, Flatten, EncodeIn;
    OnePair(args, keys, key, value);
    SourceRoundTrip(args, keys);
  }
}
