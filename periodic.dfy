/** Periodic digit strings: a string that is a shorter block repeated two or
    more times. The brute-force test isValid of day02/main.go decides this by
    looking for s inside (s + s) with its first and last characters removed;
    the theorem RotationTest shows that the test is exact. The second half
    connects the strings to numbers: the block repeated r times is the block's
    value times the multiplier 1 + 10^p + ... + 10^(p(r-1)). */
module Periodic {
  import opened Decimal
  import opened GoStrings

  /** Every character of s equals the one p places further on. */
  predicate HasPeriod(s: string, p: nat) {
    forall i :: 0 <= i < |s| - p ==> s[i] == s[i + p]
  }

  /** s is a block of length p < |s| repeated |s| / p times. */
  predicate IsProperPower(s: string) {
    exists p :: 1 <= p < |s| && |s| % p == 0 && HasPeriod(s, p)
  }

  function Repeat(w: string, r: nat): (s: string)
    ensures |s| == |w| * r
  {
    if r == 0 then [] else w + Repeat(w, r - 1)
  }

  // ---------------------------------------------------------------------------
  // Rotations

  /** Index i moved d places to the right, cyclically, in a string of length n. */
  function Shift(i: nat, d: nat, n: nat): nat {
    if i + d < n then i + d else i + d - n
  }

  /** s equals its rotation by d places. */
  ghost predicate RotationInvariant(s: string, d: nat)
    requires d <= |s|
  {
    forall i :: 0 <= i < |s| ==> Shift(i, d, |s|) < |s| && s[Shift(i, d, |s|)] == s[i]
  }

  lemma DoubledWindow(s: string, d: nat)
    requires d <= |s|
    ensures (s + s)[d..d + |s|] == s <==> RotationInvariant(s, d)
  {
    var n := |s|;
    var w := (s + s)[d..d + n];
    assert forall i :: 0 <= i < n ==> w[i] == s[Shift(i, d, n)];
  }

  lemma RotationDifference(s: string, a: nat, b: nat)
    requires b <= a <= |s|
    requires RotationInvariant(s, a) && RotationInvariant(s, b)
    ensures RotationInvariant(s, a - b)
  {
    var n, d := |s|, a - b;
    forall i | 0 <= i < n
      ensures Shift(i, d, n) < n && s[Shift(i, d, n)] == s[i]
    {
      var j := Shift(i, d, n);
      assert Shift(j, b, n) == Shift(i, a, n);
    }
  }

  /** Greatest common divisor by repeated subtraction. */
  function Gcd(a: nat, b: nat): (g: nat)
    ensures g <= a || g <= b
    ensures a > 0 || b > 0 ==> g > 0
    decreases a + b
  {
    if a == 0 then b
    else if b == 0 then a
    else if a >= b then Gcd(a - b, b)
    else Gcd(a, b - a)
  }

  lemma {:induction false} GcdDivides(a: nat, b: nat) returns (x: nat, y: nat)
    ensures a == x * Gcd(a, b) && b == y * Gcd(a, b)
    decreases a + b
  {
    var g := Gcd(a, b);
    if a == 0 {
      x, y := 0, 1;
    } else if b == 0 {
      x, y := 1, 0;
    } else if a >= b {
      var x', y' := GcdDivides(a - b, b);
      x, y := x' + y', y';
      assert (x' + y') * g == x' * g + y' * g;
    } else {
      var x', y' := GcdDivides(a, b - a);
      x, y := x', x' + y';
      assert (x' + y') * g == x' * g + y' * g;
    }
  }

  lemma {:induction false} RotationGcd(s: string, a: nat, b: nat)
    requires a <= |s| && b <= |s|
    requires RotationInvariant(s, a) && RotationInvariant(s, b)
    ensures Gcd(a, b) <= |s| && RotationInvariant(s, Gcd(a, b))
    decreases a + b
  {
    if a == 0 || b == 0 {
    } else if a >= b {
      RotationDifference(s, a, b);
      RotationGcd(s, a - b, b);
    } else {
      RotationDifference(s, b, a);
      RotationGcd(s, a, b - a);
    }
  }

  lemma Distribute(a: int, b: int, c: int)
    ensures (a + b) * c == a * c + b * c && c * (a + b) == c * a + c * b
  {
  }

  lemma MulAtLeast(a: nat, b: nat)
    requires a >= 1
    ensures a * b >= b
  {
    assert a * b == (a - 1) * b + b;
  }

  /** n = x * g leaves no remainder when divided by g, and the quotient is x. */
  lemma MultipleMod(n: nat, x: nat, g: nat)
    requires g > 0 && n == x * g
    ensures n % g == 0 && n / g == x
  {
    var q, m := n / g, n % g;
    assert n == q * g + m;
    if x > q {
      assert (x - q) * g == x * g - q * g;
      MulAtLeast(x - q, g);
    } else if x < q {
      assert (q - x) * g == q * g - x * g;
      MulAtLeast(q - x, g);
    }
  }

  /** Two periods p apart, any number of times over. */
  lemma {:induction false} PeriodMultiple(s: string, p: nat, j: nat, m: nat)
    requires HasPeriod(s, p) && j + m * p < |s|
    ensures s[j] == s[j + m * p]
  {
    if m > 0 {
      assert j + m * p == (j + (m - 1) * p) + p;
      PeriodMultiple(s, p, j, m - 1);
    }
  }

  lemma PeriodRotation(s: string, p: nat)
    requires 1 <= p < |s| && |s| % p == 0 && HasPeriod(s, p)
    ensures RotationInvariant(s, p)
  {
    var n := |s|;
    var r := n / p;
    assert n == r * p;
    forall i | 0 <= i < n
      ensures Shift(i, p, n) < n && s[Shift(i, p, n)] == s[i]
    {
      if i + p >= n {
        var j := i + p - n;
        assert i == j + (r - 1) * p;
        PeriodMultiple(s, p, j, r - 1);
      }
    }
  }

  /** A rotation by d with 0 < d < |s| that leaves s unchanged makes s a
      proper power, of period gcd(|s|, d). */
  lemma InvariantRotationIsPower(s: string, d: nat)
    requires 1 <= d < |s| && RotationInvariant(s, d)
    ensures IsProperPower(s)
  {
    var n := |s|;
    assert RotationInvariant(s, n);
    RotationGcd(s, n, d);
    var g := Gcd(n, d);
    var x, y := GcdDivides(n, d);
    MultipleMod(n, x, g);
    assert g <= d by {
      MulAtLeast(y, g);
    }
    forall i | 0 <= i < n - g ensures s[i] == s[i + g] {
      assert Shift(i, g, n) == i + g;
    }
    assert 1 <= g < n && n % g == 0 && HasPeriod(s, g);
  }

  /** An occurrence of s in (s + s)[1..2|s|-1] makes s a proper power. */
  lemma OccurrenceIsPower(s: string, k: nat)
    requires |s| >= 1 && OccursAt((s + s)[1..2 * |s| - 1], s, k)
    ensures IsProperPower(s)
  {
    var n := |s|;
    var t := (s + s)[1..2 * n - 1];
    var d := k + 1;
    var window, occurrence := (s + s)[d..d + n], t[k..k + n];
    assert window == occurrence by {
      forall i | 0 <= i < n ensures window[i] == occurrence[i] {
        assert occurrence[i] == t[k + i];
      }
    }
    DoubledWindow(s, d);
    InvariantRotationIsPower(s, d);
  }

  /** A proper power of period p occurs at offset p - 1 in (s + s)[1..2|s|-1]. */
  lemma PowerOccurs(s: string, p: nat)
    requires 1 <= p < |s| && |s| % p == 0 && HasPeriod(s, p)
    ensures OccursAt((s + s)[1..2 * |s| - 1], s, p - 1)
  {
    var n := |s|;
    var t := (s + s)[1..2 * n - 1];
    PeriodRotation(s, p);
    DoubledWindow(s, p);
    assert t[p - 1..p - 1 + n] == (s + s)[p..p + n];
  }

  /** s occurs in (s + s)[1..2|s|-1] exactly when s is a proper power. */
  lemma RotationTest(s: string)
    requires |s| >= 1
    ensures Contains((s + s)[1..2 * |s| - 1], s) <==> IsProperPower(s)
  {
    var n := |s|;
    var t := (s + s)[1..2 * n - 1];
    if Contains(t, s) {
      var k :| 0 <= k <= |t| - |s| && OccursAt(t, s, k);
      OccurrenceIsPower(s, k);
    }
    if IsProperPower(s) {
      var p :| 1 <= p < n && n % p == 0 && HasPeriod(s, p);
      PowerOccurs(s, p);
    }
  }

  /** isValid of day02/main.go: the decimal string of num occurs in its own
      doubling with the first and last characters removed. */
  function IsValid(num: int): (valid: bool)
    ensures valid <==> IsProperPower(Itoa(num))
  {
    var s := Itoa(num);
    RotationTest(s);
    Contains((s + s)[1..2 * |s| - 1], s)
  }

  /** No single-digit number and no negative number is periodic. */
  lemma NotValidBelowTen(num: int)
    requires num < 10
    ensures !IsValid(num)
  {
    var s := Itoa(num);
    if num >= 0 {
      assert |s| == 1;
    } else {
      forall p | 1 <= p < |s| ensures !HasPeriod(s, p) {
        assert s[0] == '-' && IsDigit(s[p]);
      }
    }
  }

  // ---------------------------------------------------------------------------
  // Numbers

  /** A non-negative integer whose decimal digits form a proper power. */
  ghost predicate IsPeriodicNumber(v: nat) {
    IsProperPower(Digits(v))
  }

  /** 1 + 10^p + 10^2p + ... + 10^(p(r-1)): the number whose product with a
      p-digit block writes that block r times. */
  function RepUnit(p: nat, r: nat): nat {
    if r == 0 then 0 else Pow10(p * (r - 1)) + RepUnit(p, r - 1)
  }

  /** The closed form of the multiplier: K * (10^p - 1) == 10^(pr) - 1. */
  lemma {:induction false} RepUnitClosedForm(p: nat, r: nat)
    ensures RepUnit(p, r) * (Pow10(p) - 1) == Pow10(p * r) - 1
  {
    if r > 0 {
      var big, a, rest := Pow10(p), Pow10(p * (r - 1)), RepUnit(p, r - 1);
      RepUnitClosedForm(p, r - 1);
      assert p * (r - 1) + p == p * r;
      Pow10Add(p * (r - 1), p);
      assert Pow10(p * r) == a * big;
      Distribute(a, rest, big - 1);
      Distribute(big, -1, a);
    }
  }

  lemma {:induction false} RepeatValue(w: string, r: nat)
    requires AllDigits(w)
    ensures AllDigits(Repeat(w, r))
    ensures Value(Repeat(w, r)) == Value(w) * RepUnit(|w|, r)
  {
    if r > 0 {
      var rest := Repeat(w, r - 1);
      var p := |w|;
      RepeatValue(w, r - 1);
      ValueAppend(w, rest);
      assert |rest| == p * (r - 1);
      Distribute(Pow10(p * (r - 1)), RepUnit(p, r - 1), Value(w));
    }
  }

  lemma {:induction false} RepeatHasPeriod(w: string, r: nat)
    ensures HasPeriod(Repeat(w, r), |w|)
  {
    if r > 1 {
      RepeatHasPeriod(w, r - 1);
      var rest := Repeat(w, r - 1);
      assert rest[..|w|] == w;
    }
  }

  lemma {:induction false} PeriodicIsRepeat(s: string, p: nat, r: nat)
    requires p >= 1 && r >= 1 && |s| == p * r && HasPeriod(s, p)
    ensures s == Repeat(s[..p], r)
  {
    MulPred(p, r);
    var w, rest := s[..p], s[p..];
    if r == 1 {
      assert rest == [];
    } else {
      assert HasPeriod(rest, p) by {
        forall i | 0 <= i < |rest| - p ensures rest[i] == rest[i + p] {
          assert rest[i] == s[i + p] && rest[i + p] == s[i + p + p];
        }
      }
      PeriodicIsRepeat(rest, p, r - 1);
      assert rest[..p] == w by {
        forall i | 0 <= i < p ensures rest[i] == w[i] {
          assert rest[i] == s[i + p];
        }
      }
    }
    assert s == w + rest;
  }

  lemma MulPred(p: nat, r: nat)
    requires r >= 1
    ensures p * r == p * (r - 1) + p && p * (r - 1) >= 0
  {
  }

  /** Every p-digit block times the multiplier is that block written r times:
      a number of exactly p*r digits with period p. */
  lemma BlockTimesRepUnit(base: nat, p: nat, r: nat)
    requires p >= 1 && r >= 1 && Pow10(p - 1) <= base < Pow10(p)
    ensures Digits(base * RepUnit(p, r)) == Repeat(Digits(base), r)
    ensures Length(base * RepUnit(p, r)) == p * r
    ensures HasPeriod(Digits(base * RepUnit(p, r)), p)
  {
    LengthFromBounds(base, p);
    var w := Digits(base);
    RepeatValue(w, r);
    ValueOfDigits(base);
    var s := Repeat(w, r);
    assert s[0] == w[0];
    DigitsOfValue(s);
    RepeatHasPeriod(w, r);
  }

  /** The p-digit block a number of period p starts with. */
  ghost function Block(v: nat, p: nat): nat
    requires p <= Length(v)
  {
    Value(Digits(v)[..p])
  }

  /** Conversely every number of length p*r with period p is its leading
      p-digit block times the multiplier. */
  lemma RepeatedIsBlockTimesRepUnit(v: nat, p: nat, r: nat)
    requires p >= 1 && r >= 2 && Length(v) == p * r && HasPeriod(Digits(v), p)
    ensures Pow10(p - 1) <= Block(v, p) < Pow10(p)
    ensures v == Block(v, p) * RepUnit(p, r)
  {
    var s := Digits(v);
    MulAtLeast(r, p);
    assert p * r == r * p;
    var w := s[..p];
    assert |w| == p;
    PeriodicIsRepeat(s, p, r);
    RepeatValue(w, r);
    ValueOfDigits(v);
    assert v == Value(w) * RepUnit(p, r);
    ValueUpperBound(w);
    assert v >= 10;
    assert w[0] == s[0] != '0';
    ValueLowerBound(w);
  }
}
