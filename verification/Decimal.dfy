/** Zero-padded decimals as `format!("{n:0w}")` prints them, and reading them back. */
module Decimal {
  function Digit(d: int): char
    requires 0 <= d < 10
  {
    (d + '0' as int) as char
  }

  predicate IsDigit(c: char) {
    '0' <= c <= '9'
  }

  function DigitValue(c: char): nat
    requires IsDigit(c)
  {
    c as int - '0' as int
  }

  /** `{n:0w}`: decimal, padded with zeros to at least `w` characters. */
  function Padded(n: nat, w: nat): (s: string)
    ensures |s| >= 1 && |s| >= w && forall i | 0 <= i < |s| :: IsDigit(s[i])
    decreases n, w
  {
    if n < 10 && w <= 1 then [Digit(n)]
    else Padded(n / 10, if w == 0 then 0 else w - 1) + [Digit(n % 10)]
  }

  function Pow10(w: nat): (p: nat)
    ensures p >= 1
  {
    if w == 0 then 1 else 10 * Pow10(w - 1)
  }

  lemma {:induction false} PaddedLength(n: nat, w: nat)
    requires w >= 1
    ensures |Padded(n, w)| == w <==> n < Pow10(w)
    decreases w
  {
    if w == 1 {
      assert Pow10(1) == 10;
      if n >= 10 {
        assert |Padded(n / 10, 0)| >= 1;
      }
    } else {
      PaddedLength(n / 10, w - 1);
    }
  }

  /** Reads the digits at the front of a string: their value, continuing from `acc`, and the rest. */
  function ReadDigits(s: string, acc: nat): (nat, string) {
    if s == "" || !IsDigit(s[0]) then (acc, s) else ReadDigits(s[1..], 10 * acc + DigitValue(s[0]))
  }

  function Value(s: string, acc: nat): nat
    requires forall i | 0 <= i < |s| :: IsDigit(s[i])
  {
    if s == "" then acc else Value(s[1..], 10 * acc + DigitValue(s[0]))
  }

  lemma {:induction false} ValueAppend(s: string, c: char, acc: nat)
    requires (forall i | 0 <= i < |s| :: IsDigit(s[i])) && IsDigit(c)
    ensures Value(s + [c], acc) == 10 * Value(s, acc) + DigitValue(c)
  {
    if s == "" {
      assert Value([c][1..], 10 * acc + DigitValue(c)) == 10 * acc + DigitValue(c);
    } else {
      assert (s + [c])[1..] == s[1..] + [c];
      ValueAppend(s[1..], c, 10 * acc + DigitValue(s[0]));
    }
  }

  /** The decimal reads back as the number, whatever the padding. */
  lemma {:induction false} PaddedValue(n: nat, w: nat)
    ensures Value(Padded(n, w), 0) == n
    decreases n, w
  {
    if n < 10 && w <= 1 {
      assert Value([Digit(n)][1..], n) == n;
    } else {
      var w' := if w == 0 then 0 else w - 1;
      PaddedValue(n / 10, w');
      ValueAppend(Padded(n / 10, w'), Digit(n % 10), 0);
    }
  }

  lemma {:induction false} ReadDigitsStops(s: string, rest: string, acc: nat)
    requires forall i | 0 <= i < |s| :: IsDigit(s[i])
    requires rest == "" || !IsDigit(rest[0])
    ensures ReadDigits(s + rest, acc) == (Value(s, acc), rest)
  {
    if s == "" {
      assert s + rest == rest;
    } else {
      assert (s + rest)[1..] == s[1..] + rest;
      ReadDigitsStops(s[1..], rest, 10 * acc + DigitValue(s[0]));
    }
  }
}
