/** Sorting of byte strings, the part of `sort.Strings` the argument encoder relies on. */
module Order {
  import opened Bytes

  predicate Leq(a: bytes, b: bytes) {
    a == [] || (b != [] && (a[0] < b[0] || (a[0] == b[0] && Leq(a[1..], b[1..]))))
  }

  ghost predicate Smaller(a: bytes, b: bytes, k: nat) {
    k < |a| && k < |b| && a[..k] == b[..k] && a[k] < b[k]
  }

  lemma DifferBehind(a: bytes, b: bytes)
    requires a != [] && b != [] && a[0] == b[0]
    ensures (exists k: nat :: Smaller(a, b, k)) <==> exists k: nat :: Smaller(a[1..], b[1..], k)
  {
    forall k: nat | Smaller(a, b, k)
      ensures k > 0 && Smaller(a[1..], b[1..], k - 1)
    {
      assert a[1..][..k - 1] == a[..k][1..] && b[1..][..k - 1] == b[..k][1..];
    }
    forall k: nat | Smaller(a[1..], b[1..], k)
      ensures Smaller(a, b, k + 1)
    {
      assert a[..k + 1] == [a[0]] + a[1..][..k] && b[..k + 1] == [b[0]] + b[1..][..k];
    }
  }

  /** The order of Go's strings: a is a prefix of b, or smaller at the first difference. */
  lemma {:induction false} LeqMeaning(a: bytes, b: bytes)
    ensures Leq(a, b) <==> a <= b || exists k: nat :: Smaller(a, b, k)
  {
    if a != [] && b != [] {
      assert a == [a[0]] + a[1..] && b == [b[0]] + b[1..];
      if a[0] == b[0] {
        LeqMeaning(a[1..], b[1..]);
        assert a <= b <==> a[1..] <= b[1..];
        DifferBehind(a, b);
      } else {
        assert a[..0] == b[..0];
        assert a[0] < b[0] ==> Smaller(a, b, 0);
      }
    }
  }

  lemma {:induction false} LeqTotal(a: bytes, b: bytes)
    ensures Leq(a, b) || Leq(b, a)
    ensures Leq(a, b) && Leq(b, a) ==> a == b
  {
    if a != [] && b != [] && a[0] == b[0] {
      LeqTotal(a[1..], b[1..]);
      assert a == [a[0]] + a[1..] && b == [b[0]] + b[1..];
    }
  }

  lemma {:induction false} LeqTransitive(a: bytes, b: bytes, c: bytes)
    requires Leq(a, b) && Leq(b, c)
    ensures Leq(a, c)
  {
    if a != [] && a[0] == b[0] == c[0] {
      LeqTransitive(a[1..], b[1..], c[1..]);
    }
  }

  /** Sorted and free of repetitions. */
  ghost predicate Ascending(s: seq<bytes>) {
    forall i, j | 0 <= i < j < |s| :: Leq(s[i], s[j]) && s[i] != s[j]
  }

  ghost function Elements(s: seq<bytes>): set<bytes> {
    set x | x in s
  }

  function Insert(s: seq<bytes>, x: bytes): seq<bytes> {
    if s == [] || Leq(x, s[0]) then [x] + s else [s[0]] + Insert(s[1..], x)
  }

  lemma {:induction false} InsertAscending(s: seq<bytes>, x: bytes)
    requires Ascending(s) && x !in s
    ensures Ascending(Insert(s, x)) && Elements(Insert(s, x)) == Elements(s) + {x}
  {
    if s == [] {
    } else if Leq(x, s[0]) {
      forall j | 0 <= j < |s|
        ensures Leq(x, s[j]) && x != s[j]
      {
        if j > 0 {
          LeqTransitive(x, s[0], s[j]);
        }
      }
    } else {
      LeqTotal(x, s[0]);
      InsertAscending(s[1..], x);
      var tail := Insert(s[1..], x);
      forall y | y in tail
        ensures Leq(s[0], y) && s[0] != y
      {
        assert y in Elements(tail);
        if y != x {
          var j :| 0 <= j < |s[1..]| && s[1..][j] == y;
          assert s[j + 1] == y;
        }
      }
      assert Elements(s) == {s[0]} + Elements(s[1..]) by {
        assert s == [s[0]] + s[1..];
      }
      assert Elements([s[0]] + tail) == {s[0]} + Elements(tail);
    }
  }

  method SortStrings(keys: seq<bytes>) returns (r: seq<bytes>)
    requires forall i, j | 0 <= i < j < |keys| :: keys[i] != keys[j]
    ensures Ascending(r) && Elements(r) == Elements(keys)
  {
    r := [];
    for i := 0 to |keys|
      invariant Ascending(r) && Elements(r) == Elements(keys[..i])
    {
      assert keys[i] !in r by {
        assert keys[i] !in Elements(keys[..i]);
      }
      InsertAscending(r, keys[i]);
      r := Insert(r, keys[i]);
      assert Elements(keys[..i + 1]) == Elements(keys[..i]) + {keys[i]};
    }
    assert keys[..|keys|] == keys;
  }

  lemma SameElementsSameLeast(a: seq<bytes>, b: seq<bytes>)
    requires Ascending(a) && Ascending(b) && Elements(a) == Elements(b) && a != [] && b != []
    ensures a[0] == b[0]
  {
    assert a[0] in Elements(b) && b[0] in Elements(a);
    LeqTotal(a[0], b[0]);
  }

  lemma EmptyElements(s: seq<bytes>)
    ensures s != [] ==> Elements(s) != {}
  {
    if s != [] {
      assert s[0] in Elements(s);
    }
  }

  /** A set of strings has one ascending enumeration. */
  lemma {:induction false} AscendingUnique(a: seq<bytes>, b: seq<bytes>)
    requires Ascending(a) && Ascending(b) && Elements(a) == Elements(b)
    ensures a == b
  {
    if a == [] {
      EmptyElements(b);
    } else if b == [] {
      EmptyElements(a);
    } else {
      SameElementsSameLeast(a, b);
      assert a == [a[0]] + a[1..] && b == [b[0]] + b[1..];
      assert Elements(a[1..]) == Elements(a) - {a[0]};
      assert Elements(b[1..]) == Elements(b) - {b[0]};
      AscendingUnique(a[1..], b[1..]);
    }
  }

  lemma {:induction false} AscendingExists(keys: set<bytes>)
    ensures exists s :: Ascending(s) && Elements(s) == keys
  {
    if keys == {} {
      assert Ascending([]) && Elements([]) == {};
    } else {
      var k :| k in keys;
      AscendingExists(keys - {k});
      var s :| Ascending(s) && Elements(s) == keys - {k};
      assert k !in s by {
        assert k !in Elements(s);
      }
      InsertAscending(s, k);
      assert Elements(Insert(s, k)) == keys;
    }
  }

  ghost function Sorted(keys: set<bytes>): (s: seq<bytes>)
    ensures Ascending(s) && Elements(s) == keys
  {
    AscendingExists(keys);
    var s :| Ascending(s) && Elements(s) == keys;
    s
  }

  lemma SortedUnique(s: seq<bytes>, keys: set<bytes>)
    requires Ascending(s) && Elements(s) == keys
    ensures s == Sorted(keys)
  {
    AscendingUnique(s, Sorted(keys));
  }

  lemma SortedEnumerates(keys: set<bytes>)
    ensures forall k :: k in Sorted(keys) <==> k in keys
    ensures forall i, j | 0 <= i < j < |Sorted(keys)| :: Sorted(keys)[i] != Sorted(keys)[j]
  {
    forall k
      ensures k in Sorted(keys) <==> k in keys
    {
      assert k in Elements(Sorted(keys)) <==> k in keys;
    }
  }
}
