/** The standard base64 encoding of section 4 of RFC 4648, which carries early data in a handshake header. */
module Base64 {
  import opened Bytes

  const PAD: byte := 61

  /** The alphabet of table 1. */
  function Char(v: nat): byte
    requires v < 64
  {
    if v < 26 then (65 + v) as byte
    else if v < 52 then (71 + v) as byte
    else if v < 62 then (v - 4) as byte
    else if v == 62 then 43 else 47
  }

  function Value(c: byte): (v: Option<nat>)
    ensures v.Some? ==> v.value < 64
  {
    if 65 <= c <= 90 then Some(c as nat - 65)
    else if 97 <= c <= 122 then Some(c as nat - 71)
    else if 48 <= c <= 57 then Some(c as nat + 4)
    else if c == 43 then Some(62)
    else if c == 47 then Some(63)
    else None
  }

  function Enc(b0: byte, b1: byte, b2: byte): (q: bytes)
    ensures |q| == 4
  {
    [Char(b0 as nat / 4), Char(b0 as nat % 4 * 16 + b1 as nat / 16),
     Char(b1 as nat % 16 * 4 + b2 as nat / 64), Char(b2 as nat % 64)]
  }

  function Pad1(b0: byte): bytes {
    var q := Enc(b0, 0, 0);
    [q[0], q[1], PAD, PAD]
  }

  function Pad2(b0: byte, b1: byte): bytes {
    var q := Enc(b0, b1, 0);
    [q[0], q[1], q[2], PAD]
  }

  function Encode(s: bytes): bytes {
    if s == [] then []
    else if |s| == 1 then Pad1(s[0])
    else if |s| == 2 then Pad2(s[0], s[1])
    else Enc(s[0], s[1], s[2]) + Encode(s[3..])
  }

  function Byte0(v0: nat, v1: nat): byte
    requires v0 < 64 && v1 < 64
  {
    (v0 * 4 + v1 / 16) as byte
  }

  function Byte1(v1: nat, v2: nat): byte
    requires v1 < 64 && v2 < 64
  {
    (v1 % 16 * 16 + v2 / 4) as byte
  }

  function Byte2(v2: nat, v3: nat): byte
    requires v2 < 64 && v3 < 64
  {
    (v2 % 4 * 64 + v3) as byte
  }

  /** What a decoder returns: the bytes decoded so far, also when it then meets malformed text. */
  datatype Decoded = Decoded(data: bytes, ok: bool)

  function Decode(s: bytes): Decoded {
    if s == [] then Decoded([], true)
    else if |s| < 4 then Decoded([], false)
    else match (Value(s[0]), Value(s[1]), Value(s[2]), Value(s[3]))
      case (Some(v0), Some(v1), Some(v2), Some(v3)) =>
        var rest := Decode(s[4..]);
        Decoded([Byte0(v0, v1), Byte1(v1, v2), Byte2(v2, v3)] + rest.data, rest.ok)
      case (Some(v0), Some(v1), Some(v2), None) =>
        if s[3] == PAD then Decoded([Byte0(v0, v1), Byte1(v1, v2)], |s| == 4) else Decoded([], false)
      case (Some(v0), Some(v1), None, None) =>
        if s[2] == PAD && s[3] == PAD then Decoded([Byte0(v0, v1)], |s| == 4) else Decoded([], false)
      case _ => Decoded([], false)
  }

  lemma CharValue(v: nat)
    requires v < 64
    ensures Value(Char(v)) == Some(v)
  {
  }

  lemma QuantumInverse(b0: byte, b1: byte, b2: byte)
    ensures forall i | 0 <= i < 4 :: Value(Enc(b0, b1, b2)[i]).Some?
    ensures var q := Enc(b0, b1, b2);
      && Byte0(Value(q[0]).value, Value(q[1]).value) == b0
      && Byte1(Value(q[1]).value, Value(q[2]).value) == b1
      && Byte2(Value(q[2]).value, Value(q[3]).value) == b2
  {
    CharValue(b0 as nat / 4);
    CharValue(b0 as nat % 4 * 16 + b1 as nat / 16);
    CharValue(b1 as nat % 16 * 4 + b2 as nat / 64);
    CharValue(b2 as nat % 64);
  }

  lemma PadIsNotAValue()
    ensures Value(PAD) == None
  {
  }

  lemma DecodeQuantum(q: bytes, v0: nat, v1: nat)
    requires |q| == 4 && Value(q[0]) == Some(v0) && Value(q[1]) == Some(v1)
    ensures q[2] == q[3] == PAD ==> Decode(q) == Decoded([Byte0(v0, v1)], true)
    ensures Value(q[2]).Some? && q[3] == PAD ==>
      Decode(q) == Decoded([Byte0(v0, v1), Byte1(v1, Value(q[2]).value)], true)
  {
    PadIsNotAValue();
    hide Value, Byte0, Byte1, Byte2;
  }

  lemma DecodePad1(b0: byte)
    ensures Decode(Pad1(b0)) == Decoded([b0], true)
  {
    QuantumInverse(b0, 0, 0);
    var q := Enc(b0, 0, 0);
    hide Char, Value, Byte0, Byte1, Byte2, Enc, Decode;
    DecodeQuantum(Pad1(b0), Value(q[0]).value, Value(q[1]).value);
  }

  lemma DecodePad2(b0: byte, b1: byte)
    ensures Decode(Pad2(b0, b1)) == Decoded([b0, b1], true)
  {
    QuantumInverse(b0, b1, 0);
    var q := Enc(b0, b1, 0);
    hide Char, Value, Byte0, Byte1, Byte2, Enc, Decode;
    DecodeQuantum(Pad2(b0, b1), Value(q[0]).value, Value(q[1]).value);
  }

  lemma EncodeCases(s: bytes)
    requires s != []
    ensures |s| == 1 ==> Encode(s) == Pad1(s[0])
    ensures |s| == 2 ==> Encode(s) == Pad2(s[0], s[1])
    ensures |s| > 2 ==> Encode(s) == Enc(s[0], s[1], s[2]) + Encode(s[3..])
    ensures Encode(s) != []
  {
  }

  lemma DecodeFull(b0: byte, b1: byte, b2: byte, rest: bytes)
    ensures Decode(Enc(b0, b1, b2) + rest) == Decoded([b0, b1, b2] + Decode(rest).data, Decode(rest).ok)
  {
    QuantumInverse(b0, b1, b2);
    var q := Enc(b0, b1, b2);
    hide Char, Value, Byte0, Byte1, Byte2, Enc;
    assert (q + rest)[4..] == rest;
    assert forall i | 0 <= i < 4 :: (q + rest)[i] == q[i];
  }

  /** Decoding undoes encoding, and only the empty string has an empty encoding. */
  lemma {:induction false} RoundTrip(s: bytes)
    ensures Decode(Encode(s)) == Decoded(s, true)
    ensures Encode(s) == [] <==> s == []
  {
    if s != [] {
      EncodeCases(s);
      hide Encode, Decode, Enc, Pad1, Pad2;
      if |s| == 1 {
        DecodePad1(s[0]);
        assert s == [s[0]];
      } else if |s| == 2 {
        DecodePad2(s[0], s[1]);
        assert s == [s[0], s[1]];
      } else {
        RoundTrip(s[3..]);
        DecodeFull(s[0], s[1], s[2], Encode(s[3..]));
        assert s == [s[0], s[1], s[2]] + s[3..];
      }
    }
  }

  // ----- What is encoded, in the terms of the standard -----

  /** Table 1 of RFC 4648. */
  lemma Alphabet(v: nat)
    requires v < 64
    ensures v < 26 ==> Char(v) as int == 'A' as int + v
    ensures 26 <= v < 52 ==> Char(v) as int == 'a' as int + (v - 26)
    ensures 52 <= v < 62 ==> Char(v) as int == '0' as int + (v - 52)
    ensures (v == 62 ==> Char(v) as int == '+' as int) && (v == 63 ==> Char(v) as int == '/' as int)
  {
  }

  /** Three bytes, the missing ones zero, as a number of 24 bits. */
  function Bits(s: bytes, i: nat): (n: nat)
    requires i < |s|
    ensures n < 0x100_0000
  {
    s[i] as nat * 65536 + (if i + 1 < |s| then s[i + 1] as nat * 256 else 0) + (if i + 2 < |s| then s[i + 2] as nat else 0)
  }

  /** Section 4 of RFC 4648: the number's four digits to base 64, those of missing bytes replaced by '='. */
  ghost predicate Group(s: bytes, i: nat, q: bytes)
    requires i < |s| && |q| == 4
  {
    var n := Bits(s, i);
    && q[0] == Char(n / 262144) && q[1] == Char(n / 4096 % 64)
    && (if i + 1 < |s| then q[2] == Char(n / 64 % 64) else q[2] as int == '=' as int)
    && (if i + 2 < |s| then q[3] == Char(n % 64) else q[3] as int == '=' as int)
  }

  lemma FourDigits(n: nat, d0: nat, d1: nat, d2: nat, d3: nat)
    requires n == 262144 * d0 + 4096 * d1 + 64 * d2 + d3 && d1 < 64 && d2 < 64 && d3 < 64
    ensures n / 262144 == d0 && n / 4096 % 64 == d1 && n / 64 % 64 == d2 && n % 64 == d3
  {
    assert n / 4096 == 64 * d0 + d1;
    assert n / 64 == 64 * (64 * d0 + d1) + d2;
  }

  lemma EncDigits(b0: byte, b1: byte, b2: byte)
    ensures var n := b0 as nat * 65536 + b1 as nat * 256 + b2 as nat;
      n < 0x100_0000 && Enc(b0, b1, b2) == [Char(n / 262144), Char(n / 4096 % 64), Char(n / 64 % 64), Char(n % 64)]
  {
    hide Char;
    FourDigits(b0 as nat * 65536 + b1 as nat * 256 + b2 as nat,
               b0 as nat / 4, b0 as nat % 4 * 16 + b1 as nat / 16, b1 as nat % 16 * 4 + b2 as nat / 64, b2 as nat % 64);
  }

  lemma FirstGroup(s: bytes)
    requires s != []
    ensures |Encode(s)| >= 4 && Group(s, 0, Encode(s)[..4])
    ensures Encode(s)[4..] == Encode(if |s| > 3 then s[3..] else [])
  {
    EncodeCases(s);
    EncDigits(s[0], if |s| > 1 then s[1] else 0, if |s| > 2 then s[2] else 0);
    hide Char, Enc;
  }

  lemma GroupBehind(s: bytes, i: nat, q: bytes)
    requires 3 <= i < |s| && |q| == 4
    ensures Group(s[3..], i - 3, q) == Group(s, i, q)
  {
    assert Bits(s[3..], i - 3) == Bits(s, i);
    hide Char, Bits;
  }

  lemma SliceBehind(s: bytes, a: nat, b: nat)
    requires 4 <= a <= b <= |s|
    ensures s[4..][a - 4..b - 4] == s[a..b]
  {
  }

  lemma CountGroups(n: nat)
    ensures (n + 2) / 3 == if n == 0 then 0 else 1 + (if n > 3 then n - 1 else 2) / 3
  {
  }

  lemma {:induction false} EncodeLength(s: bytes)
    ensures |Encode(s)| == (|s| + 2) / 3 * 4
    decreases |s|
  {
    if s != [] {
      FirstGroup(s);
      CountGroups(|s|);
      assert |s| <= 3 ==> Encode([]) == [];
      hide Encode;
      if |s| > 3 {
        EncodeLength(s[3..]);
      }
    }
  }

  lemma {:induction false} EncodeGroup(s: bytes, k: nat)
    requires 3 * k < |s|
    ensures 4 * k + 4 <= |Encode(s)| && Group(s, 3 * k, Encode(s)[4 * k..4 * k + 4])
  {
    FirstGroup(s);
    hide Encode, Group;
    if k > 0 {
      EncodeGroup(s[3..], k - 1);
      SliceBehind(Encode(s), 4 * k, 4 * k + 4);
      GroupBehind(s, 3 * k, Encode(s)[4 * k..4 * k + 4]);
    }
  }

  /** Every group of three bytes, the last one possibly incomplete, becomes four characters, and there are no others. */
  lemma EncodeMeaning(s: bytes)
    ensures |Encode(s)| == (|s| + 2) / 3 * 4
    ensures forall k: nat | 3 * k < |s| :: 4 * k + 4 <= |Encode(s)| && Group(s, 3 * k, Encode(s)[4 * k..4 * k + 4])
  {
    hide *;
    EncodeLength(s);
    forall k: nat | 3 * k < |s|
      ensures 4 * k + 4 <= |Encode(s)| && Group(s, 3 * k, Encode(s)[4 * k..4 * k + 4])
    {
      EncodeGroup(s, k);
    }
  }

  lemma FirstThree(x: bytes)
    requires |x| >= 3
    ensures x == [x[0], x[1], x[2]] + x[3..]
  {
  }

  lemma WholeGroup(x: bytes, rest: bytes)
    requires |x| >= 3
    ensures Encode(x) + rest == Enc(x[0], x[1], x[2]) + (Encode(x[3..]) + rest)
  {
    var q, back := Enc(x[0], x[1], x[2]), Encode(x[3..]);
    assert Encode(x) == q + back;
    hide *;
    Assoc(q, back, rest);
  }

  lemma NothingBehind(rest: bytes)
    ensures Encode([]) + rest == rest && Decoded([] + Decode(rest).data, Decode(rest).ok) == Decode(rest)
  {
    assert Encode([]) == [] && [] + Decode(rest).data == Decode(rest).data;
    hide Decode;
  }

  /** Text behind whole groups does not change what they decode to. */
  lemma {:induction false} DecodeBehind(x: bytes, rest: bytes)
    requires |x| % 3 == 0
    ensures Decode(Encode(x) + rest) == Decoded(x + Decode(rest).data, Decode(rest).ok)
  {
    hide *;
    if x == [] {
      NothingBehind(rest);
    } else {
      WholeGroup(x, rest);
      FirstThree(x);
      DecodeBehind(x[3..], rest);
      DecodeFull(x[0], x[1], x[2], Encode(x[3..]) + rest);
      Assoc([x[0], x[1], x[2]], x[3..], Decode(rest).data);
    }
  }

  lemma ValueChar(c: byte)
    requires Value(c).Some?
    ensures Char(Value(c).value) == c
  {
  }

  /** When decoding fails half way, the groups in front of the fault have been decoded. */
  lemma DecodeStops(x: bytes, rest: bytes)
    requires |x| % 3 == 0 && rest != []
    requires forall v: nat | v < 64 :: rest[0] != Char(v)
    ensures Decode(Encode(x) + rest) == Decoded(x, false)
  {
    DecodeBehind(x, rest);
    if Value(rest[0]).Some? {
      ValueChar(rest[0]);
    }
    assert x + [] == x;
    hide Encode;
  }
}
