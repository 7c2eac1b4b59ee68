/** args/args.go: the plugin-option parser, the argument encoder and the multimap between them.
    Both sides are written for an arbitrary separator; the source uses ';' when parsing and ',' when encoding. */
module ArgsCodec {
  import opened Bytes
  import opened ArgsScan
  import Order

  const EQUALS: byte := 61
  const SEMICOLON: byte := 59
  const COMMA: byte := 44
  const BARE_FLAG: bytes := [49]   // "1", the value given to a key without '='

  type Args = map<bytes, seq<bytes>>
  type Pairs = seq<(bytes, bytes)>

  datatype ParseError = DanglingEscape | EmptyKey
  datatype Parsed<+T> = Bad(error: ParseError) | Good(value: T)

  // ----- The multimap -----

  function ValuesOf(args: Args, key: bytes): seq<bytes> {
    if key in args then args[key] else []
  }

  function Get(args: Args, key: bytes): Option<bytes> {
    if ValuesOf(args, key) == [] then None else Some(args[key][0])
  }

  function Add(args: Args, key: bytes, value: bytes): Args {
    args[key := ValuesOf(args, key) + [value]]
  }

  /** The multimap left after adding the pairs one by one. */
  function Collect(ps: Pairs): Args {
    if ps == [] then map[] else Add(Collect(ps[..|ps| - 1]), ps[|ps| - 1].0, ps[|ps| - 1].1)
  }

  function Select(ps: Pairs, key: bytes): seq<bytes> {
    if ps == [] then []
    else (if ps[0].0 == key then [ps[0].1] else []) + Select(ps[1..], key)
  }

  lemma {:induction false} SelectAppend(a: Pairs, b: Pairs, key: bytes)
    ensures Select(a + b, key) == Select(a, key) + Select(b, key)
  {
    if a == [] {
      assert a + b == b;
    } else {
      assert (a + b)[1..] == a[1..] + b;
      var head := if a[0].0 == key then [a[0].1] else [];
      assert Select(a, key) == head + Select(a[1..], key) && Select(a + b, key) == head + Select(a[1..] + b, key);
      hide Select;
      SelectAppend(a[1..], b, key);
      assert head + (Select(a[1..], key) + Select(b, key)) == head + Select(a[1..], key) + Select(b, key);
    }
  }

  /** The values of a key are those of its pairs, in order: `at` lists exactly their positions, ascending. */
  lemma {:induction false} SelectMeaning(ps: Pairs, key: bytes) returns (at: seq<nat>)
    ensures |at| == |Select(ps, key)|
    ensures forall n | 0 <= n < |at| :: at[n] < |ps| && ps[at[n]] == (key, Select(ps, key)[n])
    ensures forall m, n | 0 <= m < n < |at| :: at[m] < at[n]
    ensures forall i | 0 <= i < |ps| && ps[i].0 == key :: i in at
  {
    at := [];
    if ps != [] {
      var front, last := ps[..|ps| - 1], ps[|ps| - 1];
      at := SelectMeaning(front, key);
      SelectAppend(front, [last], key);
      assert front + [last] == ps && Select([last], key) == if last.0 == key then [last.1] else [];
      hide Select;
      if last.0 == key {
        at := at + [|front|];
      }
      assert forall i | 0 <= i < |front| :: ps[i] == front[i];
    }
  }

  lemma CollectSnoc(ps: Pairs, p: (bytes, bytes))
    ensures Collect(ps + [p]) == Add(Collect(ps), p.0, p.1)
  {
    assert (ps + [p])[..|ps|] == ps;
  }

  /** Collecting keeps, for each key, exactly its values in order, and never leaves an empty list. */
  lemma {:induction false} CollectMeaning(ps: Pairs, key: bytes)
    ensures key in Collect(ps) <==> Select(ps, key) != []
    ensures ValuesOf(Collect(ps), key) == Select(ps, key)
  {
    if ps != [] {
      var front, last := ps[..|ps| - 1], ps[|ps| - 1];
      CollectMeaning(front, key);
      SelectAppend(front, [last], key);
      assert front + [last] == ps;
      assert Select([last], key) == if last.0 == key then [last.1] else [];
    }
  }

  /** Two multimaps appended key by key. */
  function Merge(a: Args, b: Args): Args {
    map k | k in a.Keys + b.Keys :: ValuesOf(a, k) + ValuesOf(b, k)
  }

  lemma SameArgs(a: Args, b: Args)
    requires forall k :: k in a <==> k in b
    requires forall k :: ValuesOf(a, k) == ValuesOf(b, k)
    ensures a == b
  {
    assert a.Keys == b.Keys;
    forall k | k in a
      ensures a[k] == b[k]
    {
      assert ValuesOf(a, k) == ValuesOf(b, k);
    }
  }

  lemma CollectAppend(a: Pairs, b: Pairs)
    ensures Collect(a + b) == Merge(Collect(a), Collect(b))
  {
    forall k
      ensures k in Collect(a + b) <==> k in Merge(Collect(a), Collect(b))
      ensures ValuesOf(Collect(a + b), k) == ValuesOf(Merge(Collect(a), Collect(b)), k)
    {
      SelectAppend(a, b, k);
      CollectMeaning(a, k);
      CollectMeaning(b, k);
      CollectMeaning(a + b, k);
    }
    SameArgs(Collect(a + b), Merge(Collect(a), Collect(b)));
  }

  // ----- The parser -----

  function Then(front: Pairs, rest: Parsed<Pairs>): Parsed<Pairs> {
    match rest
    case Bad(e) => Bad(e)
    case Good(ps) => Good(front + ps)
  }

  function From(s: bytes, i: nat): bytes {
    if i <= |s| then s[i..] else []
  }

  /** The pair at the front of s, and the position of the separator (or end of string) that closes it. */
  datatype First = NoPair(error: ParseError) | Pair(pair: (bytes, bytes), end: nat)

  /** The pair when the value, which starts at `start`, has been scanned; WithKey is the same for the key. */
  function WithValue(key: bytes, start: nat, scan: ScanResult): First {
    match scan
    case Dangling => NoPair(DanglingEscape)
    case Stop(m, value) => Pair((key, value), start + m)
  }

  function WithKey(s: bytes, sep: byte, scan: ScanResult): First {
    match scan
    case Dangling => NoPair(DanglingEscape)
    case Stop(k, key) =>
      if key == [] then NoPair(EmptyKey)
      else if k >= |s| || s[k] != EQUALS then Pair((key, BARE_FLAG), k)
      else WithValue(key, k + 1, Scan(s[k + 1..], [sep]))
  }

  function FirstPair(s: bytes, sep: byte): (r: First)
    requires s != []
    ensures r.Pair? ==> 0 < r.end <= |s| && r.pair.0 != []
  {
    WithKey(s, sep, Scan(s, [EQUALS, sep]))
  }

  /** The pairs of s, from left to right; the separator behind each of them is skipped. */
  function ParsePairs(s: bytes, sep: byte): Parsed<Pairs>
    decreases |s|
  {
    if s == [] then Good([])
    else match FirstPair(s, sep)
      case NoPair(e) => Bad(e)
      case Pair(p, n) => Then([p], ParsePairs(From(s, n + 1), sep))
  }

  function Parse(s: bytes, sep: byte): Parsed<Args> {
    match ParsePairs(s, sep)
    case Bad(e) => Bad(e)
    case Good(ps) => Good(Collect(ps))
  }

  lemma ThenThen(a: Pairs, b: Pairs, r: Parsed<Pairs>)
    ensures Then(a, Then(b, r)) == Then(a + b, r)
  {
    if r.Good? {
      assert a + (b + r.value) == a + b + r.value;
    }
  }

  lemma NextPair(s: bytes, p: (bytes, bytes), n: nat, sep: byte)
    requires s != [] && FirstPair(s, sep) == Pair(p, n)
    ensures ParsePairs(s, sep) == Then([p], ParsePairs(From(s, n + 1), sep))
  {
  }

  /** One turn of the parser's loop: the key, and the value when an equals sign follows it. */
  method ReadPair(s: bytes) returns (r: First)
    requires s != []
    ensures r == FirstPair(s, SEMICOLON)
  {
    var scan := IndexUnescaped(s, [EQUALS, SEMICOLON]);
    if scan.Dangling? {
      return NoPair(DanglingEscape);
    }
    var key := scan.text;
    if |key| == 0 {
      return NoPair(EmptyKey);
    }
    var i := scan.index;
    if i >= |s| || s[i] != EQUALS {
      return Pair((key, BARE_FLAG), i);
    }
    i := i + 1;
    scan := IndexUnescaped(s[i..], [SEMICOLON]);
    if scan.Dangling? {
      return NoPair(DanglingEscape);
    }
    return Pair((key, scan.text), i + scan.index);
  }

  /** Position i has been reached with the pairs `done` read, and they are what the multimap holds. */
  ghost predicate Progress(s: bytes, i: nat, done: Pairs, opts: Args) {
    opts == Collect(done) && ParsePairs(s, SEMICOLON) == Then(done, ParsePairs(From(s, i), SEMICOLON))
  }

  lemma ParseStep(s: bytes, i: nat, done: Pairs, opts: Args, first: First)
    requires i < |s| && Progress(s, i, done, opts) && first == FirstPair(s[i..], SEMICOLON)
    ensures first.NoPair? ==> Parse(s, 59) == Bad(first.error)
    ensures first.Pair? ==>
      Progress(s, i + first.end + 1, done + [first.pair], Add(opts, first.pair.0, first.pair.1))
  {
    if first.Pair? {
      CollectSnoc(done, first.pair);
      assert From(s[i..], first.end + 1) == From(s, i + first.end + 1);
      ThenThen(done, [first.pair], ParsePairs(From(s, i + first.end + 1), SEMICOLON));
    }
  }

  lemma ParseEnds(s: bytes, i: nat, done: Pairs, opts: Args)
    requires i >= |s| && Progress(s, i, done, opts)
    ensures Parse(s, 59) == Good(opts)
  {
    assert done + [] == done;
  }

  lemma ParseStarts(s: bytes)
    ensures Progress(s, 0, [], map[])
  {
    assert From(s, 0) == s;
    var r := ParsePairs(s, SEMICOLON);
    if r.Good? {
      assert [] + r.value == r.value;
    }
  }

  method ParsePluginOptions(s: bytes) returns (r: Parsed<Args>)
    ensures r == Parse(s, 59)
  {
    hide *;
    var opts: Args := map[];
    ParseStarts(s);
    if |s| == 0 {
      ParseEnds(s, 0, [], opts);
      return Good(opts);
    }
    var i := 0;
    ghost var done: Pairs := [];
    while i < |s|
      invariant i >= 0
      invariant Progress(s, i, done, opts)
      decreases |s| - i
    {
      var first := ReadPair(s[i..]);
      ParseStep(s, i, done, opts, first);
      if first.NoPair? {
        return Bad(first.error);
      }
      opts := Add(opts, first.pair.0, first.pair.1);
      done := done + [first.pair];
      i := i + first.end + 1;   // skip the semicolon
    }
    ParseEnds(s, i, done, opts);
    return Good(opts);
  }

  /** A multimap a parse can produce: no empty key, no key without a value. */
  ghost predicate WellFormed(args: Args) {
    [] !in args && forall k | k in args :: args[k] != []
  }

  lemma {:induction false} ParsedKeys(s: bytes, sep: byte)
    ensures ParsePairs(s, sep).Good? ==> forall p | p in ParsePairs(s, sep).value :: p.0 != []
    decreases |s|
  {
    if s != [] {
      var first := FirstPair(s, sep);
      if first.Pair? {
        ParsedKeys(From(s, first.end + 1), sep);
      }
    }
  }

  lemma {:induction false} SelectAbsent(ps: Pairs, key: bytes)
    requires forall p | p in ps :: p.0 != key
    ensures Select(ps, key) == []
  {
    if ps != [] {
      SelectAbsent(ps[1..], key);
    }
  }

  lemma ParseWellFormed(s: bytes, sep: byte)
    requires Parse(s, sep).Good?
    ensures WellFormed(Parse(s, sep).value)
  {
    var ps := ParsePairs(s, sep).value;
    ParsedKeys(s, sep);
    SelectAbsent(ps, []);
    CollectMeaning(ps, []);
    forall k | k in Collect(ps)
      ensures Collect(ps)[k] != []
    {
      CollectMeaning(ps, k);
    }
  }

  // ----- The encoder -----

  function EncodePair(p: (bytes, bytes), sep: byte): bytes {
    Escape(p.0, [EQUALS, sep]) + [EQUALS] + Escape(p.1, [EQUALS, sep])
  }

  /** strings.Join over the encoded pairs. */
  function JoinPairs(ps: Pairs, sep: byte): bytes {
    if ps == [] then []
    else if |ps| == 1 then EncodePair(ps[0], sep)
    else EncodePair(ps[0], sep) + [sep] + JoinPairs(ps[1..], sep)
  }

  function PairsOfKey(key: bytes, values: seq<bytes>): Pairs {
    seq(|values|, i requires 0 <= i < |values| => (key, values[i]))
  }

  /** The pairs in the order in which the encoder visits the keys. */
  function Flatten(args: Args, keys: seq<bytes>): Pairs {
    if keys == [] then [] else PairsOfKey(keys[0], ValuesOf(args, keys[0])) + Flatten(args, keys[1..])
  }

  /** The encoding for one order of visiting the keys. */
  function EncodeIn(args: Args, keys: seq<bytes>, sep: byte): bytes {
    JoinPairs(Flatten(args, keys), sep)
  }

  /** The encoding with the keys sorted, which is what the source emits. */
  ghost function Encode(args: Args, sep: byte): bytes {
    EncodeIn(args, Order.Sorted(args.Keys), sep)
  }

  ghost predicate Enumerates(keys: seq<bytes>, args: Args) {
    && (forall k :: k in keys <==> k in args)
    && (forall i, j | 0 <= i < j < |keys| :: keys[i] != keys[j])
  }

  ghost function Texts(ps: Pairs): seq<bytes> {
    seq(|ps|, i requires 0 <= i < |ps| => EncodePair(ps[i], COMMA))
  }

  lemma TextsAppend(a: Pairs, b: Pairs)
    ensures Texts(a + b) == Texts(a) + Texts(b)
  {
  }

  lemma FlattenNothing(args: Args, keys: seq<bytes>)
    ensures Flatten(args, keys[..0]) == [] && Texts([]) == []
  {
  }

  method EncodeKey(key: bytes, values: seq<bytes>) returns (text: seq<bytes>)
    ensures text == Texts(PairsOfKey(key, values))
  {
    text := [];
    for j := 0 to |values|
      invariant |text| == j
      invariant forall n | 0 <= n < j :: text[n] == EncodePair((key, values[n]), COMMA)
    {
      var k := BackslashEscape(key, [EQUALS, COMMA]);
      var v := BackslashEscape(values[j], [EQUALS, COMMA]);
      text := text + [k + [EQUALS] + v];
    }
  }

  method Join(text: seq<bytes>, ghost pairs: Pairs) returns (r: bytes)
    requires text == Texts(pairs)
    ensures r == JoinPairs(pairs, COMMA)
  {
    if |text| == 0 {
      return [];
    }
    var i := |text| - 1;
    r := text[i];
    while i > 0
      invariant 0 <= i < |text|
      invariant r == JoinPairs(pairs[i..], COMMA)
    {
      i := i - 1;
      r := text[i] + [COMMA] + r;
      assert pairs[i..][1..] == pairs[i + 1..];
    }
    assert pairs[0..] == pairs;
  }

  lemma {:induction false} FlattenSnoc(args: Args, keys: seq<bytes>, i: nat)
    requires i < |keys|
    ensures Flatten(args, keys[..i + 1]) == Flatten(args, keys[..i]) + PairsOfKey(keys[i], ValuesOf(args, keys[i]))
  {
    if i == 0 {
      assert keys[..1][1..] == [];
    } else {
      FlattenSnoc(args, keys[1..], i - 1);
      assert keys[..i + 1][1..] == keys[1..][..i];
      assert keys[..i][1..] == keys[1..][..i - 1];
    }
  }

  /** `iteration` is the order, free in Go, in which ranging over the map yields the keys. */
  method EncodeSmethodArgs(args: Args, iteration: seq<bytes>) returns (r: bytes)
    requires Enumerates(iteration, args)
    ensures r == Encode(args, 44)
  {
    var keys := Order.SortStrings(iteration);
    assert keys == Order.Sorted(args.Keys) by {
      Order.SortedUnique(keys, args.Keys);
    }
    hide Flatten, Texts, PairsOfKey, JoinPairs;
    ghost var pairs: Pairs := [];
    var text: seq<bytes> := [];
    FlattenNothing(args, keys);
    for i := 0 to |keys|
      invariant pairs == Flatten(args, keys[..i])
      invariant text == Texts(pairs)
    {
      ghost var added := PairsOfKey(keys[i], ValuesOf(args, keys[i]));
      var more := EncodeKey(keys[i], ValuesOf(args, keys[i]));
      FlattenSnoc(args, keys, i);
      TextsAppend(pairs, added);
      text := text + more;
      pairs := pairs + added;
    }
    assert keys[..|keys|] == keys;
    r := Join(text, pairs);
  }

  lemma {:induction false} SelectPairsOfKey(key: bytes, values: seq<bytes>, other: bytes)
    ensures Select(PairsOfKey(key, values), other) == if key == other then values else []
  {
    if values != [] {
      SelectPairsOfKey(key, values[1..], other);
      assert PairsOfKey(key, values)[1..] == PairsOfKey(key, values[1..]);
    }
  }

  lemma {:induction false} SelectFlatten(args: Args, keys: seq<bytes>, key: bytes)
    requires forall i, j | 0 <= i < j < |keys| :: keys[i] != keys[j]
    ensures Select(Flatten(args, keys), key) == if key in keys then ValuesOf(args, key) else []
  {
    if keys != [] {
      var first := PairsOfKey(keys[0], ValuesOf(args, keys[0]));
      SelectFlatten(args, keys[1..], key);
      SelectPairsOfKey(keys[0], ValuesOf(args, keys[0]), key);
      SelectAppend(first, Flatten(args, keys[1..]), key);
    }
  }

  lemma {:induction false} FlattenKeys(args: Args, keys: seq<bytes>, p: (bytes, bytes))
    requires p in Flatten(args, keys)
    ensures p.0 in keys
  {
    if p !in PairsOfKey(keys[0], ValuesOf(args, keys[0])) {
      FlattenKeys(args, keys[1..], p);
    }
  }

  // What the encoded text looks like, stated without the encoder.

  /** key=value, with exactly the equal signs, commas and backslashes of both escaped. */
  ghost predicate PairText(text: bytes, p: (bytes, bytes)) {
    exists k: bytes, v: bytes :: text == k + [61] + v && Escapes(k, p.0, [61, 44]) && Escapes(v, p.1, [61, 44])
  }

  ghost function Commas(texts: seq<bytes>): bytes {
    if texts == [] then [] else if |texts| == 1 then texts[0] else texts[0] + [44] + Commas(texts[1..])
  }

  lemma TextMeaning(p: (bytes, bytes))
    ensures PairText(EncodePair(p, 44), p)
  {
    EscapeMeaning(p.0, [61, 44]);
    EscapeMeaning(p.1, [61, 44]);
    hide Escapes, Escape;
    assert EncodePair(p, 44) == Escape(p.0, [61, 44]) + [61] + Escape(p.1, [61, 44]);
  }

  lemma {:induction false} JoinedTexts(ps: Pairs)
    ensures JoinPairs(ps, 44) == Commas(Texts(ps))
  {
    if |ps| > 1 {
      JoinedTexts(ps[1..]);
      assert Texts(ps)[1..] == Texts(ps[1..]);
    }
    hide EncodePair;
  }

  /** Keys never descend from left to right. */
  ghost predicate KeysAscend(ps: Pairs) {
    forall m, n | 0 <= m < n < |ps| :: Order.Leq(ps[m].0, ps[n].0)
  }

  lemma {:induction false} FlattenAscends(args: Args, keys: seq<bytes>)
    requires Order.Ascending(keys)
    ensures KeysAscend(Flatten(args, keys))
  {
    if keys != [] {
      FlattenAscends(args, keys[1..]);
      var first, rest := PairsOfKey(keys[0], ValuesOf(args, keys[0])), Flatten(args, keys[1..]);
      Order.LeqTotal(keys[0], keys[0]);
      forall n | 0 <= n < |rest|
        ensures Order.Leq(keys[0], rest[n].0)
      {
        FlattenKeys(args, keys[1..], rest[n]);
        var i :| 0 <= i < |keys[1..]| && keys[1..][i] == rest[n].0;
        assert keys[i + 1] == rest[n].0;
      }
      hide Order.Leq;
    }
  }

  /** The encoding is the pairs of the multimap, keys ascending and the values of a key in order, with commas between. */
  lemma EncodeMeaning(args: Args) returns (ps: Pairs, texts: seq<bytes>)
    ensures |texts| == |ps| && Encode(args, 44) == Commas(texts)
    ensures forall n | 0 <= n < |ps| :: PairText(texts[n], ps[n])
    ensures forall m, n | 0 <= m < n < |ps| :: Order.Leq(ps[m].0, ps[n].0)
    ensures forall key :: Select(ps, key) == if key in args then args[key] else []
  {
    var keys := Order.Sorted(args.Keys);
    Order.SortedEnumerates(args.Keys);
    ps := Flatten(args, keys);
    texts := Texts(ps);
    JoinedTexts(ps);
    FlattenAscends(args, keys);
    forall n | 0 <= n < |ps|
      ensures PairText(texts[n], ps[n])
    {
      TextMeaning(ps[n]);
    }
    forall key
      ensures Select(ps, key) == if key in args then args[key] else []
    {
      SelectFlatten(args, keys, key);
    }
    hide PairText, Flatten, Commas, Select, Order.Leq;
  }

  // ----- Round trip -----

  ghost predicate Separator(sep: byte) {
    sep != EQUALS && sep != BACKSLASH
  }

  lemma KeyScan(key: bytes, enc: byte, sep: byte, rest: bytes)
    requires Separator(enc) && Separator(sep) && (enc == sep || sep !in key) && rest != [] && rest[0] == EQUALS
    ensures Scan(Escape(key, [EQUALS, enc]) + rest, [EQUALS, sep]) == Stop(|Escape(key, [EQUALS, enc])|, key)
  {
    ScanEscaped(key, [EQUALS, enc], [EQUALS, sep], rest);
  }

  lemma ValueScan(value: bytes, enc: byte, sep: byte, rest: bytes)
    requires Separator(enc) && Separator(sep) && (enc == sep || sep !in value) && (rest == [] || rest[0] == sep)
    ensures Scan(Escape(value, [EQUALS, enc]) + rest, [sep]) == Stop(|Escape(value, [EQUALS, enc])|, value)
  {
    ScanEscaped(value, [EQUALS, enc], [sep], rest);
  }

  lemma FirstPairOf(s: bytes, sep: byte, k: nat, p: (bytes, bytes), m: nat)
    requires Scan(s, [EQUALS, sep]) == Stop(k, p.0) && p.0 != [] && k < |s| && s[k] == EQUALS
    requires Scan(s[k + 1..], [sep]) == Stop(m, p.1)
    ensures FirstPair(s, sep) == Pair(p, k + 1 + m)
  {
    hide Scan;
  }

  lemma Split(p: (bytes, bytes), enc: byte, rest: bytes) returns (tail: bytes)
    ensures tail != [] && tail[0] == EQUALS && EncodePair(p, enc) + rest == Escape(p.0, [EQUALS, enc]) + tail
    ensures tail[1..] == Escape(p.1, [EQUALS, enc]) + rest
    ensures |EncodePair(p, enc)| == |Escape(p.0, [EQUALS, enc])| + 1 + |Escape(p.1, [EQUALS, enc])|
  {
    var k, v := Escape(p.0, [EQUALS, enc]), Escape(p.1, [EQUALS, enc]);
    assert EncodePair(p, enc) == k + [EQUALS] + v;
    hide *;
    tail := [EQUALS] + (v + rest);
    assert (k + [EQUALS] + v) + rest == k + tail;
  }

  lemma Behind(k: bytes, tail: bytes)
    requires tail != []
    ensures (k + tail)[|k|] == tail[0] && (k + tail)[|k| + 1..] == tail[1..]
  {
  }

  /** Reading one encoded pair gives the pair and stops at the separator behind it, also when the parser's separator
      is not the encoder's, as long as it does not occur in the pair. */
  lemma FirstEncoded(p: (bytes, bytes), enc: byte, sep: byte, rest: bytes)
    requires Separator(enc) && Separator(sep) && p.0 != [] && (rest == [] || rest[0] == sep)
    requires enc == sep || (sep !in p.0 && sep !in p.1)
    ensures FirstPair(EncodePair(p, enc) + rest, sep) == Pair(p, |EncodePair(p, enc)|)
  {
    hide *;
    var tail := Split(p, enc, rest);
    var k, v := Escape(p.0, [EQUALS, enc]), Escape(p.1, [EQUALS, enc]);
    KeyScan(p.0, enc, sep, tail);
    Behind(k, tail);
    ValueScan(p.1, enc, sep, rest);
    FirstPairOf(EncodePair(p, enc) + rest, sep, |k|, p, |v|);
  }

  lemma EmptyKeyFails(p: (bytes, bytes), sep: byte, rest: bytes)
    requires Separator(sep) && p.0 == []
    ensures ParsePairs(EncodePair(p, sep) + rest, sep) == Bad(EmptyKey)
  {
    assert (EncodePair(p, sep) + rest)[0] == EQUALS;
  }

  ghost predicate NoEmptyKey(ps: Pairs) {
    forall p | p in ps :: p.0 != []
  }

  function Tail(ps: Pairs, sep: byte): bytes {
    if |ps| <= 1 then [] else [sep] + JoinPairs(ps[1..], sep)
  }

  lemma JoinedHead(ps: Pairs, sep: byte)
    requires ps != []
    ensures JoinPairs(ps, sep) == EncodePair(ps[0], sep) + Tail(ps, sep)
    ensures From(EncodePair(ps[0], sep) + Tail(ps, sep), |EncodePair(ps[0], sep)| + 1) == JoinPairs(ps[1..], sep)
    ensures EncodePair(ps[0], sep) != [] && (Tail(ps, sep) == [] || Tail(ps, sep)[0] == sep)
  {
    assert EncodePair(ps[0], sep) != [];
    hide EncodePair;
    var head, tail := EncodePair(ps[0], sep), Tail(ps, sep);
    if |ps| > 1 {
      assert head + [sep] + JoinPairs(ps[1..], sep) == head + tail;
      assert (head + tail)[|head| + 1..] == tail[1..];
    } else {
      assert head + tail == head;
    }
  }

  /** The parser reads back the list of pairs exactly when no key is empty. */
  lemma {:induction false} ParseJoined(ps: Pairs, sep: byte)
    requires Separator(sep)
    ensures ParsePairs(JoinPairs(ps, sep), sep) == if NoEmptyKey(ps) then Good(ps) else Bad(EmptyKey)
  {
    if ps != [] {
      hide ParsePairs, FirstPair, EncodePair, Tail, JoinPairs, From;
      var p, rest := ps[0], Tail(ps, sep);
      JoinedHead(ps, sep);
      ParseJoined(ps[1..], sep);
      assert [p] + ps[1..] == ps;
      if p.0 == [] {
        EmptyKeyFails(p, sep, rest);
        assert !NoEmptyKey(ps);
      } else {
        FirstEncoded(p, sep, sep, rest);
        NextPair(EncodePair(p, sep) + rest, p, |EncodePair(p, sep)|, sep);
        assert NoEmptyKey(ps) <==> NoEmptyKey(ps[1..]) by {
          assert forall q :: q in ps <==> q == p || q in ps[1..];
        }
      }
    }
  }

  /** Collecting the pairs of a multimap gives it back, except for keys with an empty list. */
  lemma CollectFlatten(args: Args, keys: seq<bytes>)
    requires Enumerates(keys, args)
    ensures WellFormed(args) ==> Collect(Flatten(args, keys)) == args && NoEmptyKey(Flatten(args, keys))
  {
    if WellFormed(args) {
      var ps := Flatten(args, keys);
      forall k
        ensures k in Collect(ps) <==> k in args
        ensures ValuesOf(Collect(ps), k) == ValuesOf(args, k)
      {
        SelectFlatten(args, keys, k);
        CollectMeaning(ps, k);
      }
      SameArgs(Collect(ps), args);
      forall p | p in ps
        ensures p.0 != []
      {
        FlattenKeys(args, keys, p);
      }
    }
  }

  /** Parsing the encoded form gives the multimap back, values in order, in whatever order the keys were
      visited, if and only if no key is empty and no key has an empty list of values. */
  lemma RoundTrip(args: Args, keys: seq<bytes>, sep: byte)
    requires Separator(sep) && Enumerates(keys, args)
    ensures Parse(EncodeIn(args, keys, sep), sep) == Good(args) <==> WellFormed(args)
  {
    ParseJoined(Flatten(args, keys), sep);
    CollectFlatten(args, keys);
    if Parse(EncodeIn(args, keys, sep), sep) == Good(args) {
      ParseWellFormed(EncodeIn(args, keys, sep), sep);
    }
  }

  lemma EncodeRoundTrip(args: Args, sep: byte)
    requires Separator(sep)
    ensures Parse(Encode(args, sep), sep) == Good(args) <==> WellFormed(args)
  {
    Order.SortedEnumerates(args.Keys);
    RoundTrip(args, Order.Sorted(args.Keys), sep);
  }

  /** Different multimaps have different encodings, also when their keys are visited in different orders. */
  lemma EncodeInjective(a: Args, aKeys: seq<bytes>, b: Args, bKeys: seq<bytes>, sep: byte)
    requires Separator(sep) && Enumerates(aKeys, a) && Enumerates(bKeys, b)
    requires WellFormed(a) && WellFormed(b)
    requires EncodeIn(a, aKeys, sep) == EncodeIn(b, bKeys, sep)
    ensures a == b
  {
    RoundTrip(a, aKeys, sep);
    RoundTrip(b, bKeys, sep);
  }

  /** Whatever string was accepted (redundant escapes, bare flags, bare '=' in values, trailing separator),
      re-encoding the result gives a normal form with the same meaning, and normalising twice changes nothing. */
  lemma Normalisation(s: bytes, sep: byte)
    requires Separator(sep) && Parse(s, sep).Good?
    ensures var normal := Encode(Parse(s, sep).value, sep);
      && Parse(normal, sep) == Parse(s, sep)
      && Encode(Parse(normal, sep).value, sep) == normal
  {
    ParseWellFormed(s, sep);
    EncodeRoundTrip(Parse(s, sep).value, sep);
  }

  // ----- Compositionality -----

  /** s ends in a separator that is not escaped. */
  ghost predicate EndsInSeparator(s: bytes, sep: byte) {
    s != [] && s[|s| - 1] == sep && Live(s, |s| - 1)
  }

  /** The part of s behind a live separator at position c - 1 ends like s itself. */
  lemma SuffixEnds(s: bytes, c: nat, sep: byte)
    requires Separator(sep) && 0 < c <= |s| && s[c - 1] != BACKSLASH
    ensures c < |s| ==> EndsInSeparator(s[c..], sep) == EndsInSeparator(s, sep)
  {
    if c < |s| {
      LiveShift(s, c, |s| - 1 - c);
    }
  }

  lemma ScanStopLive(s: bytes, term: seq<byte>, sep: byte)
    requires BACKSLASH !in term && sep in term && Scan(s, term).Stop?
    ensures var k := Scan(s, term).index;
            Live(s, k) && (k == |s| || s[k] in term) && (k == |s| ==> !EndsInSeparator(s, sep))
  {
    var k := Scan(s, term).index;
    ScanMeaning(s, term);
    assert Scan(s, term) == Stop(k, Scan(s, term).text);
    assert k == |s| && s != [] ==> !LiveIn(s, |s| - 1, term);
  }

  lemma LastNotSeparator(s: bytes, sep: byte)
    requires s != [] && s[|s| - 1] != sep
    ensures !EndsInSeparator(s, sep)
  {
  }

  /** A pair is closed by a separator or by the end of the string. */
  lemma FirstPairEnd(s: bytes, sep: byte)
    requires Separator(sep) && s != [] && FirstPair(s, sep).Pair?
    ensures var n := FirstPair(s, sep).end;
            if n == |s| then !EndsInSeparator(s, sep) else n < |s| && s[n] == sep && Live(s, n)
  {
    hide Scan, EndsInSeparator, BackslashRun;
    var k := Scan(s, [EQUALS, sep]).index;
    ScanStopLive(s, [EQUALS, sep], sep);
    if k < |s| && s[k] == EQUALS {
      var rest := s[k + 1..];
      ScanStopLive(rest, [sep], sep);
      SuffixEnds(s, k + 1, sep);
      LiveShift(s, k + 1, Scan(rest, [sep]).index);
      if rest == [] {
        LastNotSeparator(s, sep);
      }
    }
  }

  lemma DropAppend(s: bytes, k: nat, more: bytes)
    requires k <= |s|
    ensures (s + more)[k..] == s[k..] + more
  {
  }

  lemma FirstPairExtend(s: bytes, more: bytes, sep: byte)
    requires Separator(sep) && s != [] && FirstPair(s, sep).Pair?
    requires FirstPair(s, sep).end < |s| || more == [] || more[0] == sep
    ensures FirstPair(s + more, sep) == FirstPair(s, sep)
  {
    hide Scan;
    var k := Scan(s, [EQUALS, sep]).index;
    ScanExtend(s, more, [EQUALS, sep]);
    if k < |s| && s[k] == EQUALS {
      DropAppend(s, k + 1, more);
      ScanExtend(s[k + 1..], more, [sep]);
    }
  }

  ghost function Glue(s: bytes, sep: byte): bytes {
    if EndsInSeparator(s, sep) then [] else [sep]
  }

  lemma TailGlued(s: bytes, n: nat, rest: bytes, more: bytes, sep: byte)
    requires Separator(sep) && n <= |s| && rest == Glue(s, sep) + more
    requires if n == |s| then !EndsInSeparator(s, sep) else s[n] == sep && Live(s, n)
    ensures n + 1 >= |s| ==> From(s + rest, n + 1) == more && From(s, n + 1) == []
    ensures n + 1 < |s| ==> From(s + rest, n + 1) == s[n + 1..] + rest && Glue(s[n + 1..], sep) == Glue(s, sep)
  {
    if n + 1 < |s| {
      SuffixEnds(s, n + 1, sep);
      DropAppend(s, n + 1, rest);
    } else if n + 1 == |s| {
      assert EndsInSeparator(s, sep);
      DropAppend(s, n + 1, rest);
      assert rest == more && s[n + 1..] + more == more;
    } else {
      assert rest == [sep] + more;
      DropAppend(s, n, rest);
      assert (s + rest)[n + 1..] == (s + rest)[n..][1..];
    }
    hide EndsInSeparator, Live;
  }

  /** Parsing s + glue + more, where the glue is a separator unless s already ends in one. */
  lemma {:induction false} ParseGlued(s: bytes, rest: bytes, more: bytes, sep: byte)
    requires Separator(sep) && s != [] && ParsePairs(s, sep).Good? && rest == Glue(s, sep) + more
    ensures ParsePairs(s + rest, sep) == Then(ParsePairs(s, sep).value, ParsePairs(more, sep))
    decreases |s|
  {
    var n, p := FirstPair(s, sep).end, FirstPair(s, sep).pair;
    FirstPairEnd(s, sep);
    FirstPairExtend(s, rest, sep);
    NextPair(s, p, n, sep);
    NextPair(s + rest, p, n, sep);
    var tail := From(s, n + 1);
    TailGlued(s, n, rest, more, sep);
    if n + 1 >= |s| {
      assert ParsePairs(tail, sep) == Good([]);
      assert [p] + [] == [p];
    } else {
      ParseGlued(tail, rest, more, sep);
      ThenThen([p], ParsePairs(tail, sep).value, ParsePairs(more, sep));
    }
  }

  lemma ParseAfterSeparator(s: bytes, more: bytes, sep: byte)
    requires Separator(sep)
    ensures ParsePairs([sep] + more, sep) == Bad(EmptyKey)
  {
    assert ([sep] + more)[0] == sep;
  }

  lemma PairsCompose(s1: bytes, s2: bytes, sep: byte)
    requires Separator(sep) && s1 != [] && ParsePairs(s1, sep).Good?
    ensures ParsePairs(s1 + [sep] + s2, sep) ==
      if EndsInSeparator(s1, sep) then Bad(EmptyKey) else Then(ParsePairs(s1, sep).value, ParsePairs(s2, sep))
  {
    assert s1 + ([sep] + s2) == s1 + [sep] + s2;
    if EndsInSeparator(s1, sep) {
      ParseGlued(s1, [sep] + s2, [sep] + s2, sep);
      ParseAfterSeparator(s1, s2, sep);
    } else {
      ParseGlued(s1, [sep] + s2, s2, sep);
    }
  }

  /** For accepted, non-empty s1: joining it to s2 with a separator is accepted exactly when s1 does not already
      end in one and s2 is accepted, and then every key holds its values from s1 followed by those from s2. */
  lemma ParseComposes(s1: bytes, s2: bytes, sep: byte)
    requires Separator(sep) && s1 != [] && Parse(s1, sep).Good?
    ensures Parse(s1 + [sep] + s2, sep).Good? <==> !EndsInSeparator(s1, sep) && Parse(s2, sep).Good?
    ensures Parse(s1 + [sep] + s2, sep).Good? ==>
      Parse(s1 + [sep] + s2, sep).value == Merge(Parse(s1, sep).value, Parse(s2, sep).value)
  {
    PairsCompose(s1, s2, sep);
    if !EndsInSeparator(s1, sep) && ParsePairs(s2, sep).Good? {
      CollectAppend(ParsePairs(s1, sep).value, ParsePairs(s2, sep).value);
    }
  }
}
