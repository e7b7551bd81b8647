/** The closed-form engine of day02/ai_generated_optimized.go: instead of
    testing every integer of a range, it enumerates, for each digit length L
    and each proper divisor p of L, the p-digit blocks whose repetition
    lands in the range, and sums the distinct values obtained. */
module PeriodicEngine {
  import opened Decimal
  import opened GoInt
  import opened SetSum
  import opened Periodic

  /** An inclusive range start-end as read from the input. */
  datatype Range = Range(start: int, end: int)

  /** Values below this limit are deduplicated in the dense bitmap tier. */
  const DenseLimit: int := 1048576

  /** numDigits caps every length at 10. */
  const MaxDigits: nat := 10

  // ---------------------------------------------------------------------------
  // Digit counts and powers

  /** numDigits: the number of decimal digits of n, saturating at 10;
      1 for every n < 10, negative n included. */
  function NumDigits(n: int): (r: int)
    ensures 1 <= r <= MaxDigits
  {
    if n < 10 then 1
    else if n < 100 then 2
    else if n < 1000 then 3
    else if n < 10000 then 4
    else if n < 100000 then 5
    else if n < 1000000 then 6
    else if n < 10000000 then 7
    else if n < 100000000 then 8
    else if n < 1000000000 then 9
    else 10
  }

  /** The powers of ten the engine writes out as constants: 10^0 .. 10^10. */
  const Pow10Table: seq<int> := [1, 10, 100, 1000, 10000, 100000, 1000000,
    10000000, 100000000, 1000000000, 10000000000]

  lemma Pow10TableCorrect()
    ensures |Pow10Table| == MaxDigits + 1
    ensures forall i :: 0 <= i <= MaxDigits ==> Pow10Table[i] == Pow10(i)
  {
    assert Pow10(1) == 10;
    assert Pow10(2) == 100;
    assert Pow10(3) == 1000;
    assert Pow10(4) == 10000;
    assert Pow10(5) == 100000;
    assert Pow10(6) == 1000000;
    assert Pow10(7) == 10000000;
    assert Pow10(8) == 100000000;
    assert Pow10(9) == 1000000000;
    assert Pow10(10) == 10000000000;
  }

  /** For 0 <= n the result is the digit count of n, or 10 when n has more. */
  lemma NumDigitsIsLength(n: int)
    ensures n < 0 ==> NumDigits(n) == 1
    ensures n >= 0 ==> NumDigits(n) == if Length(n) < MaxDigits then Length(n) else MaxDigits
  {
    Pow10TableCorrect();
    if n >= 0 {
      var r := NumDigits(n);
      if r < MaxDigits {
        LengthFromBounds(n, r);
      } else {
        LengthBounds(n);
        if Length(n) < MaxDigits {
          Pow10Monotone(Length(n), 9);
        }
      }
    }
  }

  /** b^e. */
  function Pow(b: int, e: nat): int {
    if e == 0 then 1 else b * Pow(b, e - 1)
  }

  lemma {:induction false} PowAdd(b: int, e1: nat, e2: nat)
    ensures Pow(b, e1 + e2) == Pow(b, e1) * Pow(b, e2)
  {
    if e1 > 0 {
      PowAdd(b, e1 - 1, e2);
    }
  }

  lemma {:induction false} PowSquare(b: int, e: nat)
    ensures Pow(b * b, e) == Pow(b, 2 * e)
  {
    if e > 0 {
      PowSquare(b, e - 1);
      PowAdd(b, 2, 2 * e - 2);
    }
  }

  /** A power of a power of ten is a power of ten. */
  lemma {:induction false} PowOfPow10(p: nat, r: nat)
    ensures Pow(Pow10(p), r) == Pow10(p * r)
  {
    if r > 0 {
      PowOfPow10(p, r - 1);
      assert p * r == p * (r - 1) + p;
      Pow10Add(p * (r - 1), p);
    }
  }

  /** intPow: multiplies base into result exp times; a non-positive exp gives 1. */
  method IntPow(base: int, exp: int) returns (result: int)
    ensures result == if exp <= 0 then 1 else Pow(base, exp)
  {
    result := 1;
    var i := 0;
    while i < exp
      invariant exp > 0 ==> 0 <= i <= exp
      invariant result == Pow(base, if exp > 0 then i else 0)
    {
      result := result * base;
      i := i + 1;
    }
  }

  /** intPowFast: square-and-multiply over the bits of exp. */
  method IntPowFast(base: int, exp: int) returns (result: int)
    ensures result == if exp <= 0 then 1 else Pow(base, exp)
  {
    if exp == 0 {
      return 1;
    }
    result := 1;
    var b, e := base, exp;
    while e > 0
      invariant exp > 0 ==> e >= 0 && result * Pow(b, e) == Pow(base, exp)
      invariant exp < 0 ==> e == exp && result == 1
    {
      PowSquare(b, e / 2);
      if e % 2 == 1 {
        PowAdd(b, 1, 2 * (e / 2));
        assert Pow(b, e) == b * Pow(b * b, e / 2);
        result := result * b;
      }
      b := b * b;
      e := e / 2;
    }
  }

  /** The multiplier the engine computes, (10^p)^r - 1 divided by 10^p - 1,
      is the repunit of r blocks of p digits, and the division is exact. */
  lemma Multiplier(p: nat, r: nat)
    requires p >= 1
    ensures Pow10(p) - 1 > 0
    ensures (Pow(Pow10(p), r) - 1) / (Pow10(p) - 1) == RepUnit(p, r)
    ensures (Pow(Pow10(p), r) - 1) % (Pow10(p) - 1) == 0
  {
    Pow10Monotone(1, p);
    PowOfPow10(p, r);
    RepUnitClosedForm(p, r);
    MultipleMod(Pow10(p * r) - 1, RepUnit(p, r), Pow10(p) - 1);
  }

  /** The multiplier as the engine evaluates it, from 10^p and (10^p)^r. */
  lemma MultiplierOf(p: nat, r: nat, powP: int, power: int, K: int)
    requires p >= 1 && powP == Pow10(p) && power == Pow(powP, r)
    requires K == (power - 1) / (powP - 1)
    ensures K == RepUnit(p, r)
  {
    Multiplier(p, r);
  }

  // ---------------------------------------------------------------------------
  // What the engine sums

  /** v lies in one of the ranges. */
  predicate InRanges(rs: seq<Range>, v: int) {
    exists i | 0 <= i < |rs| :: rs[i].start <= v <= rs[i].end
  }

  /** The periodic numbers of at most ten digits lying in one of the ranges. */
  ghost function PeriodicIn(rs: seq<Range>): set<int> {
    set v: int | 0 <= v < Pow10(MaxDigits) && InRanges(rs, v) && IsPeriodicNumber(v)
  }

  /** v has a period q < bound that is a proper divisor of its length. */
  ghost predicate PeriodicBelow(v: nat, bound: int) {
    exists q :: 1 <= q < bound && q < Length(v) && Length(v) % q == 0 && HasPeriod(Digits(v), q)
  }

  /** The values found once every length below len, and the periods below p
      of length len, have been enumerated. */
  ghost function Covered(rs: seq<Range>, len: nat, p: int): set<int> {
    set v: int | 0 <= v < Pow10(len) && InRanges(rs, v)
      && PeriodicBelow(v, if Length(v) < len then Length(v) else p)
  }

  /** The values the pair (len, p) contributes: the numbers of exactly len
      digits in the ranges with period p, provided p is a proper divisor of len. */
  ghost function Hits(rs: seq<Range>, len: nat, p: int): set<int> {
    set v: int | 0 <= v < Pow10(len) && InRanges(rs, v) && Length(v) == len
      && 1 <= p < len && len % p == 0 && HasPeriod(Digits(v), p)
  }

  /** The products b * K for low <= b <= high. */
  function Multiples(low: int, high: int, K: int): set<int> {
    set b: int | low <= b <= high :: b * K
  }

  lemma PeriodicBelowLength(v: nat)
    ensures PeriodicBelow(v, Length(v)) <==> IsPeriodicNumber(v)
  {
    if IsPeriodicNumber(v) {
      var q :| 1 <= q < |Digits(v)| && |Digits(v)| % q == 0 && HasPeriod(Digits(v), q);
      assert q < Length(v);
    }
  }

  lemma HitsEmpty(rs: seq<Range>, len: nat, p: int)
    requires !(1 <= p < len && len % p == 0)
    ensures Hits(rs, len, p) == {}
  {
  }

  /** Enumerating period p of length len adds exactly Hits(len, p). */
  lemma CoveredNextPeriod(rs: seq<Range>, len: nat, p: int)
    requires len >= 1 && p >= 1
    ensures Covered(rs, len, p + 1) == Covered(rs, len, p) + Hits(rs, len, p)
  {
    forall v | v in Covered(rs, len, p + 1)
      ensures v in Covered(rs, len, p) + Hits(rs, len, p)
    {
      LengthAtMost(v, len);
      if Length(v) == len && !PeriodicBelow(v, p) {
        var q :| 1 <= q < p + 1 && q < Length(v) && Length(v) % q == 0 && HasPeriod(Digits(v), q);
        assert q == p;
      }
    }
    forall v | v in Hits(rs, len, p) ensures v in Covered(rs, len, p + 1) {
      assert PeriodicBelow(v, p + 1) by {
        assert 1 <= p < p + 1 && p < Length(v) && Length(v) % p == 0 && HasPeriod(Digits(v), p);
      }
    }
  }

  /** Once every period of length len is done, the next length starts. */
  lemma CoveredNextLength(rs: seq<Range>, len: nat, p: int)
    requires len >= 1 && p >= len
    ensures Covered(rs, len, p) == Covered(rs, len + 1, 1)
  {
    Pow10Monotone(len, len + 1);
    forall v | v in Covered(rs, len + 1, 1) ensures v in Covered(rs, len, p) {
      LengthAtMost(v, len + 1);
      LengthBelow(v, len);
    }
    forall v | v in Covered(rs, len, p) ensures v in Covered(rs, len + 1, 1) {
      LengthAtMost(v, len);
    }
  }

  /** No value of a range is shorter than the lowest start's digit count. */
  lemma LengthAtLeast(rs: seq<Range>, lowest: int, v: int)
    requires forall i :: 0 <= i < |rs| ==> lowest <= rs[i].start
    requires 0 <= v && InRanges(rs, v)
    ensures NumDigits(lowest) <= Length(v)
  {
    NumDigitsIsLength(lowest);
    NumDigitsIsLength(v);
    if lowest >= 0 {
      LengthMonotone(lowest, v);
    }
  }

  /** Enumeration starts with nothing covered. */
  lemma CoveredStart(rs: seq<Range>, lowest: int)
    requires forall i :: 0 <= i < |rs| ==> lowest <= rs[i].start
    ensures Covered(rs, NumDigits(lowest), 1) == {}
  {
    forall v | v in Covered(rs, NumDigits(lowest), 1) ensures false {
      LengthAtLeast(rs, lowest, v);
    }
  }

  /** When the length loop stops, exactly the periodic values are covered. */
  lemma CoveredEnd(rs: seq<Range>, lowest: int, highest: int, len: nat)
    requires forall i :: 0 <= i < |rs| ==> lowest <= rs[i].start && rs[i].end <= highest
    requires len > NumDigits(highest) && len >= NumDigits(lowest)
    requires len == NumDigits(lowest) || len == NumDigits(highest) + 1
    ensures Covered(rs, len, 1) == PeriodicIn(rs)
  {
    NumDigitsIsLength(highest);
    forall v | v in Covered(rs, len, 1) ensures v in PeriodicIn(rs) {
      LengthAtMost(v, len);
      assert Length(v) < len;
      PeriodicBelowLength(v);
      LengthBelow(v, MaxDigits);
    }
    forall v | v in PeriodicIn(rs) ensures v in Covered(rs, len, 1) {
      LengthAtLeast(rs, lowest, v);
      PeriodicBelowLength(v);
      if highest < Pow10(MaxDigits) {
        LengthMonotone(v, highest);
        LengthAtMost(highest, MaxDigits);
      } else {
        LengthAtMost(v, MaxDigits);
        if Length(highest) < MaxDigits {
          LengthBelow(highest, MaxDigits);
        }
      }
      assert Length(v) < len;
      LengthBelow(v, len);
    }
  }

  // ---------------------------------------------------------------------------
  // From a (length, period) pair to its bases

  /** low := (start + K - 1) / K, raised to minBase when below it. */
  function ClampLow(start: int, K: int, minBase: int): int
    requires K >= 1
  {
    var low := Quot(start + K - 1, K);
    if low < minBase then minBase else low
  }

  /** high := end / K, lowered to maxBase when above it. */
  function ClampHigh(end: int, K: int, maxBase: int): int
    requires K >= 1
  {
    var high := Quot(end, K);
    if high > maxBase then maxBase else high
  }

  lemma MulMonotone(x: int, y: int, k: int)
    requires k > 0
    ensures x <= y <==> x * k <= y * k
  {
    if x <= y {
      Distribute(y - x, x, k);
    } else {
      Distribute(x - y, y, k);
    }
  }

  /** (start + K - 1) / K, truncated as in Go, is the least positive base b
      with b * K >= start, whatever the sign of start. */
  lemma CeilQuot(start: int, K: int, b: int)
    requires K >= 1 && b >= 1
    ensures b >= Quot(start + K - 1, K) <==> b * K >= start
  {
    var a := start + K - 1;
    var q := Quot(a, K);
    MulMonotone(1, b, K);
    if a >= 0 {
      MulMonotone(q, b, K);
      MulMonotone(b, q - 1, K);
      Distribute(q, -1, K);
    } else {
      MulMonotone(1, q, K);
    }
  }

  /** end / K, truncated as in Go, is the greatest base b with b * K <= end
      when positive bases exist, and no positive base qualifies otherwise. */
  lemma FloorQuot(end: int, K: int, b: int)
    requires K >= 1 && b >= 1
    ensures b <= Quot(end, K) <==> b * K <= end
  {
    var h := Quot(end, K);
    MulMonotone(1, b, K);
    if end >= 0 {
      MulMonotone(b, h, K);
      MulMonotone(h + 1, b, K);
      Distribute(h, 1, K);
    } else {
      MulMonotone(1, h, K);
    }
  }

  /** The clamped bounds keep exactly the bases between minBase and maxBase
      whose product with K lies in the range. */
  lemma ClampExact(r: Range, K: int, minBase: int, maxBase: int, b: int)
    requires K >= 1 && minBase >= 1
    ensures ClampLow(r.start, K, minBase) <= b <= ClampHigh(r.end, K, maxBase)
        <==> minBase <= b <= maxBase && r.start <= b * K <= r.end
  {
    if b >= minBase {
      CeilQuot(r.start, K, b);
      FloorQuot(r.end, K, b);
    }
  }

  lemma RepeatsAtLeastTwo(len: nat, p: nat)
    requires 1 <= p < len && len % p == 0
    ensures len == p * (len / p) && len / p >= 2
  {
    var r := len / p;
    assert len == p * r + len % p;
    if r < 2 {
      MulMonotone(r, 1, p);
    }
  }

  lemma RepUnitPositive(p: nat, r: nat)
    requires r >= 1
    ensures RepUnit(p, r) >= 1
  {
  }

  /** The bases the engine enumerates for (len, p), times the multiplier,
      are exactly the values of length len and period p in the range. */
  lemma MultiplesAreHits(r: Range, len: nat, p: nat, K: int)
    requires 1 <= p < len && len % p == 0 && K == RepUnit(p, len / p)
    ensures K >= 1
    ensures Multiples(ClampLow(r.start, K, Pow10(p - 1)), ClampHigh(r.end, K, Pow10(p) - 1), K)
        == Hits([r], len, p)
  {
    var reps := len / p;
    RepeatsAtLeastTwo(len, p);
    RepUnitPositive(p, reps);
    var minBase, maxBase := Pow10(p - 1), Pow10(p) - 1;
    var low, high := ClampLow(r.start, K, minBase), ClampHigh(r.end, K, maxBase);
    forall x | x in Multiples(low, high, K) ensures x in Hits([r], len, p) {
      var b :| low <= b <= high && x == b * K;
      ClampExact(r, K, minBase, maxBase, b);
      BlockTimesRepUnit(b, p, reps);
      LengthBelow(x, len);
      assert InRanges([r], x) by {
        assert [r][0] == r;
      }
    }
    forall v | v in Hits([r], len, p) ensures v in Multiples(low, high, K) {
      RepeatedIsBlockTimesRepUnit(v, p, reps);
      var b := Block(v, p);
      var i :| 0 <= i < 1 && [r][i].start <= v <= [r][i].end;
      ClampExact(r, K, minBase, maxBase, b);
      assert low <= b <= high && v == b * K;
    }
  }

  lemma MultiplesStep(low: int, b: int, K: int)
    requires low <= b
    ensures Multiples(low, b, K) == Multiples(low, b - 1, K) + {b * K}
  {
  }

  lemma MultiplesEmpty(low: int, high: int, K: int)
    requires high < low
    ensures Multiples(low, high, K) == {}
  {
  }

  // ---------------------------------------------------------------------------
  // sumValidInRangeMath

  function Max(a: int, b: int): int {
    if a < b then b else a
  }

  /** The baseline method: a set of seen values (the Go map) guards the sum. */
  method SumValidInRangeMath(start: int, end: int) returns (sum: int)
    ensures sum == Sum(PeriodicIn([Range(start, end)]))
  {
    var r := Range(start, end);
    ghost var rs := [r];
    var minLen := NumDigits(start);
    var maxLen := NumDigits(end);
    sum := 0;
    var seen: set<int> := {};
    CoveredStart(rs, start);
    var length := minLen;
    while length <= maxLen
      invariant minLen <= length <= Max(minLen, maxLen + 1)
      invariant seen == Covered(rs, length, 1) && sum == Sum(seen)
    {
      for p := 1 to length
        invariant seen == Covered(rs, length, p) && sum == Sum(seen)
      {
        CoveredNextPeriod(rs, length, p);
        if length % p != 0 {
          HitsEmpty(rs, length, p);
          continue;
        }
        seen, sum := OfferPeriodToSet(seen, sum, r, length, p);
      }
      CoveredNextLength(rs, length, length);
      length := length + 1;
    }
    CoveredEnd(rs, start, end, length);
  }

  /** One (length, p) step of sumValidInRangeMath: the multiplier from the
      table of powers of ten, the clamped bases, and the base loop. */
  method OfferPeriodToSet(seen: set<int>, sum: int, r: Range, length: int, p: int)
    returns (seen': set<int>, sum': int)
    requires 1 <= p < length <= MaxDigits && length % p == 0 && sum == Sum(seen)
    ensures seen' == seen + Hits([r], length, p) && sum' == Sum(seen')
  {
    var pow10 := Pow10Table;
    Pow10TableCorrect();
    var repeats := length / p;
    var powP := pow10[p];
    var power := IntPow(powP, repeats);
    var K := (power - 1) / (powP - 1);
    RepeatsAtLeastTwo(length, p);
    MultiplierOf(p, repeats, powP, power, K);
    var minBase := pow10[p - 1];
    var maxBase := pow10[p] - 1;
    MultiplesAreHits(r, length, p, K);
    var low := ClampLow(r.start, K, minBase);
    var high := ClampHigh(r.end, K, maxBase);
    seen', sum' := OfferToSet(seen, sum, low, high, K);
  }

  /** The base loop of sumValidInRangeMath: each base*K not yet seen is
      marked seen and added to the sum. */
  method OfferToSet(seen: set<int>, sum: int, low: int, high: int, K: int)
    returns (seen': set<int>, sum': int)
    requires sum == Sum(seen)
    ensures seen' == seen + Multiples(low, high, K) && sum' == Sum(seen')
  {
    seen', sum' := seen, sum;
    var base := low;
    while base <= high
      invariant low <= base <= Max(low, high + 1)
      invariant seen' == seen + Multiples(low, base - 1, K) && sum' == Sum(seen')
    {
      var val := base * K;
      MultiplesStep(low, base, K);
      if val !in seen' {
        SumInsert(seen', val);
        seen' := seen' + {val};
        sum' := sum' + val;
      }
      base := base + 1;
    }
    if low > high {
      MultiplesEmpty(low, high, K);
      MultiplesEmpty(low, low - 1, K);
    }
  }

  // ---------------------------------------------------------------------------
  // addToSum and its two-tier accumulator

  /** The state sumValidExtreme and batchProcessRanges share with addToSum:
      the running sum, a bitmap for values below DenseLimit, and a map (here
      a set) with a flag for larger values. Seen is the set of values offered
      so far. */
  class Accumulator {
    var sum: int
    var bitmap: array<bool>
    var hasLarge: bool
    var largeMap: set<int>
    ghost var Seen: set<int>

    ghost predicate Valid()
      reads this, bitmap
    {
      && bitmap.Length == DenseLimit
      && (forall v :: 0 <= v < DenseLimit ==> (bitmap[v] <==> v in Seen))
      && (forall v :: v in largeMap <==> v in Seen && v >= DenseLimit)
      && (forall v :: v in Seen ==> v >= 0)
      && (hasLarge <==> largeMap != {})
      && sum == Sum(Seen)
    }

    constructor ()
      ensures Valid() && fresh(bitmap) && Seen == {}
    {
      sum := 0;
      bitmap := new bool[DenseLimit](_ => false);
      hasLarge := false;
      largeMap := {};
      Seen := {};
    }

    /** addToSum: the sum grows by val exactly when val is offered for the
        first time, whichever tier records it. */
    method Add(val: int)
      requires Valid() && val >= 0
      modifies this, bitmap
      ensures Valid() && bitmap == old(bitmap)
      ensures Seen == old(Seen) + {val}
      ensures sum == old(sum) + (if val in old(Seen) then 0 else val)
    {
      if val < DenseLimit {
        if !bitmap[val] {
          bitmap[val] := true;
          SumInsert(Seen, val);
          Seen := Seen + {val};
          sum := sum + val;
        }
      } else {
        if !hasLarge {
          hasLarge := true;
        }
        if val !in largeMap {
          largeMap := largeMap + {val};
          SumInsert(Seen, val);
          Seen := Seen + {val};
          sum := sum + val;
        }
      }
    }
  }

  /** The base loop shared by sumValidExtreme and batchProcessRanges. */
  method OfferBases(acc: Accumulator, low: int, high: int, K: int)
    requires acc.Valid() && low >= 1 && K >= 1
    modifies acc, acc.bitmap
    ensures acc.Valid() && acc.bitmap == old(acc.bitmap)
    ensures acc.Seen == old(acc.Seen) + Multiples(low, high, K)
  {
    var base := low;
    while base <= high
      invariant low <= base <= Max(low, high + 1)
      invariant acc.Valid() && acc.bitmap == old(acc.bitmap)
      invariant acc.Seen == old(acc.Seen) + Multiples(low, base - 1, K)
    {
      MulMonotone(1, base, K);
      MultiplesStep(low, base, K);
      acc.Add(base * K);
      base := base + 1;
    }
    if low > high {
      MultiplesEmpty(low, high, K);
      MultiplesEmpty(low, low - 1, K);
    }
  }

  /** One (length, p) block of sumValidExtreme, unrolled or from the loop:
      the multiplier from 10^p by intPowFast, the clamped bases, and the base
      loop feeding addToSum. */
  method OfferPeriod(acc: Accumulator, r: Range, ghost length: nat, ghost p: nat,
                     powP: int, repeats: int, minBase: int, maxBase: int)
    requires acc.Valid()
    requires 1 <= p < length && length % p == 0 && repeats == length / p
    requires powP == Pow10(p) && minBase == Pow10(p - 1) && maxBase == Pow10(p) - 1
    modifies acc, acc.bitmap
    ensures acc.Valid() && acc.bitmap == old(acc.bitmap)
    ensures acc.Seen == old(acc.Seen) + Hits([r], length, p)
  {
    var power := IntPowFast(powP, repeats);
    var K := (power - 1) / (powP - 1);
    RepeatsAtLeastTwo(length, p);
    MultiplierOf(p, repeats, powP, power, K);
    MultiplesAreHits(r, length, p, K);
    var low := ClampLow(r.start, K, minBase);
    var high := ClampHigh(r.end, K, maxBase);
    OfferBases(acc, low, high, K);
  }

  // ---------------------------------------------------------------------------
  // sumValidExtreme

  /** The unrolled variant: periods 1 to 5 written out under the conditions
      the source tests, then a loop for periods from 6 on. */
  method SumValidExtreme(start: int, end: int) returns (sum: int)
    ensures sum == Sum(PeriodicIn([Range(start, end)]))
  {
    var r := Range(start, end);
    ghost var rs := [r];
    var minLen := NumDigits(start);
    var maxLen := NumDigits(end);
    var acc := new Accumulator();
    CoveredStart(rs, start);
    var length := minLen;
    while length <= maxLen
      invariant minLen <= length <= Max(minLen, maxLen + 1)
      invariant acc.Valid() && fresh(acc) && fresh(acc.bitmap)
      invariant acc.Seen == Covered(rs, length, 1)
    {
      UnrolledPeriods(acc, r, length);
      LongPeriods(acc, r, length);
      length := length + 1;
    }
    CoveredEnd(rs, start, end, length);
    sum := acc.sum;
  }

  /** The blocks for p = 1 .. 5 of one length, each run under the source's
      own test (the second argument after the period); for lengths up to 10
      these tests select exactly the proper divisors. */
  method UnrolledPeriods(acc: Accumulator, r: Range, length: int)
    requires acc.Valid() && 1 <= length <= MaxDigits
    requires acc.Seen == Covered([r], length, 1)
    modifies acc, acc.bitmap
    ensures acc.Valid() && acc.bitmap == old(acc.bitmap)
    ensures acc.Seen == Covered([r], length, 6)
  {
    ShortBlocks(acc, r, length);
    MiddleBlocks(acc, r, length);
  }

  /** The unrolled blocks for p = 1 and p = 2. */
  method ShortBlocks(acc: Accumulator, r: Range, length: int)
    requires acc.Valid() && 1 <= length <= MaxDigits
    requires acc.Seen == Covered([r], length, 1)
    modifies acc, acc.bitmap
    ensures acc.Valid() && acc.bitmap == old(acc.bitmap)
    ensures acc.Seen == Covered([r], length, 3)
  {
    SmallPowers();
    UnrolledBlock(acc, r, length, 1, length >= 2, 10, length, 1, 9);
    UnrolledBlock(acc, r, length, 2, length >= 4 && length % 2 == 0, 100, length / 2, 10, 99);
  }

  /** The unrolled blocks for p = 3, 4 and 5. */
  method MiddleBlocks(acc: Accumulator, r: Range, length: int)
    requires acc.Valid() && 1 <= length <= MaxDigits
    requires acc.Seen == Covered([r], length, 3)
    modifies acc, acc.bitmap
    ensures acc.Valid() && acc.bitmap == old(acc.bitmap)
    ensures acc.Seen == Covered([r], length, 6)
  {
    SmallPowers();
    UnrolledBlock(acc, r, length, 3, length >= 6 && length % 3 == 0, 1000, length / 3, 100, 999);
    UnrolledBlock(acc, r, length, 4, length >= 8 && length % 4 == 0, 10000, length / 4, 1000, 9999);
    UnrolledBlock(acc, r, length, 5, length == 10, 100000, 2, 10000, 99999);
  }

  lemma SmallPowers()
    ensures Pow10(0) == 1 && Pow10(1) == 10 && Pow10(2) == 100 && Pow10(3) == 1000
    ensures Pow10(4) == 10000 && Pow10(5) == 100000
  {
  }

  /** One unrolled block: when its test holds, period p is enumerated. */
  method UnrolledBlock(acc: Accumulator, r: Range, ghost length: nat, ghost p: nat, test: bool,
                       powP: int, repeats: int, minBase: int, maxBase: int)
    requires acc.Valid() && 1 <= p && 1 <= length
    requires acc.Seen == Covered([r], length, p)
    requires test <==> p < length && length % p == 0
    requires test ==> repeats == length / p && powP == Pow10(p)
    requires minBase == Pow10(p - 1) && maxBase == Pow10(p) - 1
    modifies acc, acc.bitmap
    ensures acc.Valid() && acc.bitmap == old(acc.bitmap)
    ensures acc.Seen == Covered([r], length, p + 1)
  {
    if test {
      OfferPeriod(acc, r, length, p, powP, repeats, minBase, maxBase);
    } else {
      HitsEmpty([r], length, p);
    }
    CoveredNextPeriod([r], length, p);
  }

  /** The loop over periods from 6 on. Its table covers every period up to
      10; larger ones fall back to intPowFast. */
  method LongPeriods(acc: Accumulator, r: Range, length: int)
    requires acc.Valid() && 1 <= length
    requires acc.Seen == Covered([r], length, 6)
    modifies acc, acc.bitmap
    ensures acc.Valid() && acc.bitmap == old(acc.bitmap)
    ensures acc.Seen == Covered([r], length + 1, 1)
  {
    var p := 6;
    while p < length
      invariant 6 <= p <= Max(6, length)
      invariant acc.Valid() && acc.bitmap == old(acc.bitmap)
      invariant acc.Seen == Covered([r], length, p)
    {
      CoveredNextPeriod([r], length, p);
      if length % p != 0 {
        HitsEmpty([r], length, p);
        p := p + 1;
        continue;
      }
      var powP, minBase, maxBase := LongPeriodConstants(p);
      OfferPeriod(acc, r, length, p, powP, length / p, minBase, maxBase);
      p := p + 1;
    }
    CoveredNextLength([r], length, p);
  }

  /** The switches of the period loop: the table of powers of ten up to
      period 10, intPowFast beyond. */
  method LongPeriodConstants(p: int) returns (powP: int, minBase: int, maxBase: int)
    requires p >= 6
    ensures powP == Pow10(p) && minBase == Pow10(p - 1) && maxBase == Pow10(p) - 1
  {
    if p <= MaxDigits {
      var pow10 := Pow10Table;
      Pow10TableCorrect();
      powP, minBase, maxBase := pow10[p], pow10[p - 1], pow10[p] - 1;
    } else {
      powP, minBase, maxBase := PowerConstants(p);
    }
  }

  /** 10^p, 10^(p-1) and 10^p - 1, each by intPowFast. */
  method PowerConstants(p: int) returns (powP: int, minBase: int, maxBase: int)
    requires p >= 1
    ensures powP == Pow10(p) && minBase == Pow10(p - 1) && maxBase == Pow10(p) - 1
  {
    powP := IntPowFast(10, p);
    minBase := IntPowFast(10, p - 1);
    var top := IntPowFast(10, p);
    maxBase := top - 1;
    PowOfPow10(1, p);
    PowOfPow10(1, p - 1);
  }
}
