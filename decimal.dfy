/** Decimal digit strings of natural numbers: what strconv.Itoa produces for a
    non-negative int, the value a digit string denotes, and how the two relate. */
module Decimal {

  function Pow10(n: nat): (r: nat)
    ensures r >= 1
  {
    if n == 0 then 1 else 10 * Pow10(n - 1)
  }

  predicate IsDigit(c: char) {
    '0' <= c <= '9'
  }

  predicate AllDigits(s: string) {
    forall i :: 0 <= i < |s| ==> IsDigit(s[i])
  }

  function DigitChar(d: nat): (c: char)
    requires d < 10
    ensures IsDigit(c)
  {
    ('0' as int + d) as char
  }

  /** The value of a decimal digit character; 0 for any other character. */
  function DigitValue(c: char): (d: nat)
    ensures d < 10
  {
    if IsDigit(c) then c as int - '0' as int else 0
  }

  /** The decimal representation of n, most significant digit first, without
      leading zeros: "0" for 0. */
  function Digits(n: nat): (s: string)
    ensures |s| >= 1 && AllDigits(s)
    ensures s[0] == '0' <==> n == 0
  {
    if n < 10 then [DigitChar(n)] else Digits(n / 10) + [DigitChar(n % 10)]
  }

  /** The number of decimal digits of n. */
  function Length(n: nat): nat {
    |Digits(n)|
  }

  /** The number a string of decimal digits denotes. */
  function Value(s: string): nat {
    if s == [] then 0 else Value(s[..|s| - 1]) * 10 + DigitValue(s[|s| - 1])
  }

  lemma Pow10Add(a: nat, b: nat)
    ensures Pow10(a + b) == Pow10(a) * Pow10(b)
  {
    if a > 0 {
      Pow10Add(a - 1, b);
    }
  }

  lemma Pow10Monotone(a: nat, b: nat)
    requires a <= b
    ensures Pow10(a) <= Pow10(b)
  {
    if a < b {
      Pow10Monotone(a, b - 1);
    }
  }

  /** Reading back the digits of n gives n. */
  lemma {:induction false} ValueOfDigits(n: nat)
    ensures Value(Digits(n)) == n
  {
    if n >= 10 {
      var d := Digits(n / 10);
      assert (d + [DigitChar(n % 10)])[..|d|] == d;
      ValueOfDigits(n / 10);
    }
  }

  /** Concatenating digit strings shifts the left part by the length of the right part. */
  lemma {:induction false} ValueAppend(s: string, t: string)
    ensures Value(s + t) == Value(s) * Pow10(|t|) + Value(t)
  {
    if t == [] {
      assert s + t == s;
    } else {
      var t' := t[..|t| - 1];
      var d := DigitValue(t[|t| - 1]);
      assert (s + t)[..|s + t| - 1] == s + t';
      assert Value(s + t) == Value(s + t') * 10 + d;
      ValueAppend(s, t');
      ShiftStep(Value(s), Value(t'), d, Pow10(|t'|));
    }
  }

  lemma ShiftStep(a: int, b: int, d: int, big: int)
    ensures (a * big + b) * 10 + d == a * (big * 10) + (b * 10 + d)
  {
  }

  lemma {:induction false} ValueUpperBound(s: string)
    ensures Value(s) < Pow10(|s|)
  {
    if s != [] {
      ValueUpperBound(s[..|s| - 1]);
    }
  }

  lemma {:induction false} ValueLowerBound(s: string)
    requires AllDigits(s) && |s| >= 1 && s[0] != '0'
    ensures Pow10(|s| - 1) <= Value(s)
  {
    if |s| > 1 {
      var s' := s[..|s| - 1];
      ValueLowerBound(s');
    }
  }

  /** A digit string without a leading zero is the representation of its value. */
  lemma {:induction false} DigitsOfValue(s: string)
    requires AllDigits(s) && |s| >= 1 && (s[0] != '0' || |s| == 1)
    ensures Digits(Value(s)) == s
  {
    if |s| > 1 {
      var s' := s[..|s| - 1];
      ValueLowerBound(s');
      DigitsOfValue(s');
      assert s == s' + [s[|s| - 1]];
    }
  }

  /** The digit count of n is the L with 10^(L-1) <= n < 10^L (L = 1 for n < 10). */
  lemma {:induction false} LengthBounds(n: nat)
    ensures n < Pow10(Length(n))
    ensures n >= 10 ==> Length(n) >= 2 && Pow10(Length(n) - 1) <= n
  {
    ValueOfDigits(n);
    ValueUpperBound(Digits(n));
    if n >= 10 {
      ValueLowerBound(Digits(n));
    }
  }

  lemma {:induction false} LengthFromBounds(n: nat, len: nat)
    requires 1 <= len && n < Pow10(len)
    requires len > 1 ==> Pow10(len - 1) <= n
    ensures Length(n) == len
  {
    if len > 1 {
      assert n >= 10 by { Pow10Monotone(1, len - 1); }
      LengthFromBounds(n / 10, len - 1);
    }
  }

  lemma {:induction false} LengthMonotone(a: nat, b: nat)
    requires a <= b
    ensures Length(a) <= Length(b)
  {
    if a >= 10 {
      LengthMonotone(a / 10, b / 10);
    }
  }

  /** A number below 10^len has at most len digits. */
  lemma LengthAtMost(n: nat, len: nat)
    requires 1 <= len && n < Pow10(len)
    ensures Length(n) <= len
  {
    LengthBounds(n);
    if Length(n) > len {
      Pow10Monotone(len, Length(n) - 1);
    }
  }

  /** A number of at most len digits is below 10^len. */
  lemma LengthBelow(n: nat, len: nat)
    requires Length(n) <= len
    ensures n < Pow10(len)
  {
    LengthBounds(n);
    Pow10Monotone(Length(n), len);
  }
}
