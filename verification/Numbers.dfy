/** strconv.ParseUint(s, 10, bits): which texts are numbers, and which number each of them denotes. */
module Numbers {
  import opened Bytes

  predicate Digits(s: bytes) {
    s != [] && forall b | b in s :: 48 <= b <= 57
  }

  function Digit(b: byte): nat {
    if 48 <= b <= 57 then b as nat - 48 else 0
  }

  function Decimal(s: bytes): nat {
    if s == [] then 0 else 10 * Decimal(s[..|s| - 1]) + Digit(s[|s| - 1])
  }

  function ParseUint(s: bytes, limit: nat): Option<nat> {
    if Digits(s) && Decimal(s) < limit then Some(Decimal(s)) else None
  }

  // ----- The meaning of a numeric text, as the inverse of printing -----

  /** The usual decimal notation, without superfluous zeros. */
  function Print(n: nat): bytes {
    if n < 10 then [(48 + n) as byte] else Print(n / 10) + [(48 + n % 10) as byte]
  }

  /** The first so many characters are zeros. */
  ghost predicate Zeros(text: bytes, zeros: nat) {
    zeros <= |text| && forall i | 0 <= i < zeros :: text[i] == 48
  }

  /** The text is the decimal notation of n behind any number of zeros. */
  ghost predicate Denotes(text: bytes, n: nat) {
    exists zeros: nat :: zeros <= |text| && Zeros(text, zeros) && text[zeros..] == Print(n)
  }

  lemma DecimalSnoc(s: bytes, b: byte)
    ensures Decimal(s + [b]) == 10 * Decimal(s) + Digit(b)
  {
    assert (s + [b])[..|s|] == s;
  }

  lemma {:induction false} PrintDecimal(n: nat)
    ensures Digits(Print(n)) && Decimal(Print(n)) == n
  {
    if n >= 10 {
      PrintDecimal(n / 10);
      DecimalSnoc(Print(n / 10), (48 + n % 10) as byte);
    } else {
      DecimalSnoc([], (48 + n) as byte);
      assert [] + [(48 + n) as byte] == Print(n);
    }
  }

  lemma {:induction false} LeadingZeros(text: bytes, zeros: nat)
    requires Zeros(text, zeros)
    ensures Decimal(text) == Decimal(text[zeros..])
    decreases |text|
  {
    if text != [] {
      var front, last := text[..|text| - 1], text[|text| - 1];
      assert text == front + [last];
      if zeros == |text| {
        LeadingZeros(front, |front|);
      } else {
        LeadingZeros(front, zeros);
        assert text[zeros..][..|text[zeros..]| - 1] == front[zeros..];
      }
    }
  }

  lemma DigitsSnoc(front: bytes, last: byte)
    requires Digits(front + [last])
    ensures 48 <= last <= 57 && (front != [] ==> Digits(front))
  {
    assert last in front + [last];
    assert forall b | b in front :: b in front + [last];
  }

  lemma PrintDigit(n: nat, d: byte)
    requires 48 <= d <= 57
    ensures Print(Digit(d)) == [d] && (n > 0 ==> Print(10 * n + Digit(d)) == Print(n) + [d])
  {
    var m := 10 * n + Digit(d);
    assert m / 10 == n && m % 10 == Digit(d);
  }

  lemma OnlyZeros(front: bytes, zeros: nat, d: byte)
    requires Zeros(front, zeros) && front[zeros..] == [48]
    ensures Zeros(front + [d], |front|) && (front + [d])[|front|..] == [d]
  {
    assert front[zeros] == front[zeros..][0] && |front[zeros..]| == 1;
  }

  lemma MoreDigits(front: bytes, zeros: nat, d: byte)
    requires Zeros(front, zeros)
    ensures Zeros(front + [d], zeros) && (front + [d])[zeros..] == front[zeros..] + [d]
  {
  }

  lemma NoZeros(text: bytes)
    ensures Zeros(text, 0)
  {
  }

  lemma DenotesSnoc(front: bytes, d: byte, n: nat)
    requires 48 <= d <= 57 && (if front == [] then n == 0 else Denotes(front, n))
    ensures Denotes(front + [d], 10 * n + Digit(d))
  {
    PrintDigit(n, d);
    assert Print(0) == [48];
    hide Print, Digit, Zeros;
    if front == [] {
      assert Zeros([d], 0) by {
        NoZeros([d]);
      }
      assert [] + [d] == [d] && [d][0..] == [d];
    } else {
      var zeros: nat :| zeros <= |front| && Zeros(front, zeros) && front[zeros..] == Print(n);
      if n == 0 {
        OnlyZeros(front, zeros, d);
      } else {
        MoreDigits(front, zeros, d);
      }
    }
  }

  lemma {:induction false} DenotesDecimal(text: bytes)
    requires Digits(text)
    ensures Denotes(text, Decimal(text))
    decreases |text|
  {
    var front, last := text[..|text| - 1], text[|text| - 1];
    assert text == front + [last] && Decimal([]) == 0;
    DecimalSnoc(front, last);
    hide *;
    DigitsSnoc(front, last);
    if front != [] {
      DenotesDecimal(front);
    }
    DenotesSnoc(front, last, Decimal(front));
  }

  lemma ZerosDigits(text: bytes, zeros: nat)
    requires Zeros(text, zeros) && Digits(text[zeros..])
    ensures Digits(text)
  {
    forall b | b in text
      ensures 48 <= b <= 57
    {
      var i :| 0 <= i < |text| && text[i] == b;
      if i >= zeros {
        assert text[zeros..][i - zeros] == b;
        assert b in text[zeros..];
      }
    }
  }

  lemma DenotesBack(text: bytes, n: nat)
    requires Denotes(text, n)
    ensures Digits(text) && Decimal(text) == n
  {
    hide Zeros, Print, Digits, Decimal;
    var zeros: nat :| zeros <= |text| && Zeros(text, zeros) && text[zeros..] == Print(n);
    PrintDecimal(n);
    LeadingZeros(text, zeros);
    ZerosDigits(text, zeros);
  }

  /** A text is accepted exactly when it denotes a number in range, and that is the result. */
  lemma NumberMeaning(text: bytes, limit: nat, n: nat)
    ensures ParseUint(text, limit) == Some(n) <==> Denotes(text, n) && n < limit
    ensures ParseUint(text, limit).Some? <==> exists m: nat :: Denotes(text, m) && m < limit
  {
    forall m: nat | Denotes(text, m)
      ensures Digits(text) && Decimal(text) == m
    {
      DenotesBack(text, m);
    }
    if Digits(text) {
      DenotesDecimal(text);
    }
    hide Denotes, Digits, Decimal;
  }
}
