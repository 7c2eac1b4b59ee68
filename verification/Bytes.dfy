/** Byte strings, optional values and the few facts about concatenation that every other module shares. */
module Bytes {
  newtype byte = b: int | 0 <= b < 256
  type bytes = seq<byte>

  /** Go's 64-bit uint. */
  type uint = u: nat | u < 0x1_0000_0000_0000_0000

  datatype Option<+T> = None | Some(value: T)

  function Min(a: int, b: int): int {
    if a <= b then a else b
  }

  /** The conversion `int(u)` of a 64-bit unsigned value: the top half of the range wraps to negative numbers. */
  function IntOfUint(u: uint): int {
    if u < 0x8000_0000_0000_0000 then u else u - 0x1_0000_0000_0000_0000
  }

  /** The byte stream carried by a sequence of messages. */
  function Concat(messages: seq<bytes>): bytes {
    if messages == [] then [] else messages[0] + Concat(messages[1..])
  }

  lemma Assoc(a: bytes, b: bytes, c: bytes)
    ensures a + (b + c) == a + b + c
  {
  }

  lemma CutJoin(a: bytes, n: nat, b: bytes)
    requires n <= |a|
    ensures a[..n] + (a[n..] + b) == a + b
  {
  }

  lemma {:induction false} ConcatAppend(a: seq<bytes>, b: seq<bytes>)
    ensures Concat(a + b) == Concat(a) + Concat(b)
  {
    if a == [] {
      assert a + b == b;
    } else {
      assert (a + b)[1..] == a[1..] + b;
      assert Concat(a) == a[0] + Concat(a[1..]) && Concat(a + b) == a[0] + Concat(a[1..] + b);
      hide Concat;
      ConcatAppend(a[1..], b);
      Assoc(a[0], Concat(a[1..]), Concat(b));
    }
  }

  lemma ConcatSnoc(a: seq<bytes>, m: bytes)
    ensures Concat(a + [m]) == Concat(a) + m
  {
    ConcatAppend(a, [m]);
    assert Concat([m]) == m + Concat([]);
  }
}
