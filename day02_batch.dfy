/** batchProcessRanges of day02/ai_generated_optimized.go, which shares one
    accumulator across all ranges, and the per-range totals its main prints
    beside it. The two agree unless ranges overlap: the batch counts a value
    lying in two ranges once, the per-range totals count it twice. */
module BatchEngine {
  import opened Decimal
  import opened SetSum
  import opened Periodic
  import opened PeriodicEngine

  // ---------------------------------------------------------------------------
  // batchProcessRanges

  /** The least start and the greatest end over a non-empty list of ranges. */
  method GlobalBounds(ranges: seq<Range>) returns (globalMin: int, globalMax: int)
    requires |ranges| > 0
    ensures forall i :: 0 <= i < |ranges| ==> globalMin <= ranges[i].start && ranges[i].end <= globalMax
    ensures exists i :: 0 <= i < |ranges| && globalMin == ranges[i].start
    ensures exists i :: 0 <= i < |ranges| && globalMax == ranges[i].end
  {
    globalMin, globalMax := ranges[0].start, ranges[0].end;
    for j := 1 to |ranges|
      invariant forall i :: 0 <= i < j ==> globalMin <= ranges[i].start && ranges[i].end <= globalMax
      invariant exists i :: 0 <= i < j && globalMin == ranges[i].start
      invariant exists i :: 0 <= i < j && globalMax == ranges[i].end
    {
      var r := ranges[j];
      if r.start < globalMin {
        globalMin := r.start;
      }
      if r.end > globalMax {
        globalMax := r.end;
      }
    }
  }

  /** The sum of the distinct periodic numbers (of at most ten digits) lying
      in at least one of the ranges. The list must be non-empty: the source
      reads ranges[0]. */
  method BatchProcessRanges(ranges: seq<Range>) returns (sum: int)
    requires |ranges| > 0
    ensures sum == Sum(PeriodicIn(ranges))
  {
    var globalMin, globalMax := GlobalBounds(ranges);
    var minLen := NumDigits(globalMin);
    var maxLen := NumDigits(globalMax);
    var acc := new Accumulator();
    CoveredStart(ranges, globalMin);
    var length := minLen;
    while length <= maxLen
      invariant minLen <= length <= Max(minLen, maxLen + 1)
      invariant acc.Valid() && fresh(acc) && fresh(acc.bitmap)
      invariant acc.Seen == Covered(ranges, length, 1)
    {
      BatchLength(acc, ranges, length);
      length := length + 1;
    }
    CoveredEnd(ranges, globalMin, globalMax, length);
    sum := acc.sum;
  }

  /** The period loop of one length: each proper divisor p of length is
      enumerated over all ranges. */
  method BatchLength(acc: Accumulator, ranges: seq<Range>, length: int)
    requires acc.Valid() && 1 <= length
    requires acc.Seen == Covered(ranges, length, 1)
    modifies acc, acc.bitmap
    ensures acc.Valid() && acc.bitmap == old(acc.bitmap)
    ensures acc.Seen == Covered(ranges, length + 1, 1)
  {
    for p := 1 to length
      invariant acc.Valid() && acc.bitmap == old(acc.bitmap)
      invariant acc.Seen == Covered(ranges, length, p)
    {
      CoveredNextPeriod(ranges, length, p);
      if length % p != 0 {
        HitsEmpty(ranges, length, p);
        continue;
      }
      BatchPeriod(acc, ranges, length, p);
    }
    CoveredNextLength(ranges, length, length);
  }

  /** One (length, p) pair: the multiplier and the base bounds by intPowFast,
      then for every range its clamped bases, skipped when empty. */
  method BatchPeriod(acc: Accumulator, ranges: seq<Range>, length: int, p: int)
    requires acc.Valid() && 1 <= p < length && length % p == 0
    modifies acc, acc.bitmap
    ensures acc.Valid() && acc.bitmap == old(acc.bitmap)
    ensures acc.Seen == old(acc.Seen) + Hits(ranges, length, p)
  {
    var repeats := length / p;
    var powP, minBase, maxBase := PowerConstants(p);
    var power := IntPowFast(powP, repeats);
    var K := (power - 1) / (powP - 1);
    RepeatsAtLeastTwo(length, p);
    MultiplierOf(p, repeats, powP, power, K);
    for j := 0 to |ranges|
      invariant acc.Valid() && acc.bitmap == old(acc.bitmap)
      invariant acc.Seen == old(acc.Seen) + Hits(ranges[..j], length, p)
    {
      var r := ranges[j];
      MultiplesAreHits(r, length, p, K);
      HitsPrefix(ranges, j, length, p);
      var low := ClampLow(r.start, K, minBase);
      var high := ClampHigh(r.end, K, maxBase);
      if low > high {
        MultiplesEmpty(low, high, K);
        continue;
      }
      OfferBases(acc, low, high, K);
    }
    assert ranges[..|ranges|] == ranges;
  }

  lemma InRangesSnoc(rs: seq<Range>, r: Range, v: int)
    ensures InRanges(rs + [r], v) <==> InRanges(rs, v) || InRanges([r], v)
  {
    var t := rs + [r];
    if InRanges(t, v) {
      var i :| 0 <= i < |t| && t[i].start <= v <= t[i].end;
      if i == |rs| {
        assert [r][0].start <= v <= [r][0].end;
      } else {
        assert rs[i].start <= v <= rs[i].end;
      }
    }
    if InRanges(rs, v) {
      var i :| 0 <= i < |rs| && rs[i].start <= v <= rs[i].end;
      assert t[i] == rs[i];
    }
    if InRanges([r], v) {
      assert t[|rs|] == r;
    }
  }

  /** Adding a range to the list adds its own hits. */
  lemma HitsPrefix(rs: seq<Range>, j: int, len: nat, p: int)
    requires 0 <= j < |rs|
    ensures Hits(rs[..j + 1], len, p) == Hits(rs[..j], len, p) + Hits([rs[j]], len, p)
  {
    assert rs[..j + 1] == rs[..j] + [rs[j]];
    forall v ensures InRanges(rs[..j + 1], v) <==> InRanges(rs[..j], v) || InRanges([rs[j]], v) {
      InRangesSnoc(rs[..j], rs[j], v);
    }
  }

  // ---------------------------------------------------------------------------
  // The per-range totals of main

  /** What main sums when it calls the single-range engines range by range. */
  ghost function PerRangeTotal(rs: seq<Range>): int {
    if rs == [] then 0
    else PerRangeTotal(rs[..|rs| - 1]) + Sum(PeriodicIn([rs[|rs| - 1]]))
  }

  /** sumMath in main: sumValidInRangeMath summed over the ranges. */
  method MathTotal(ranges: seq<Range>) returns (total: int)
    ensures total == PerRangeTotal(ranges)
  {
    total := 0;
    for j := 0 to |ranges|
      invariant total == PerRangeTotal(ranges[..j])
    {
      var s := SumValidInRangeMath(ranges[j].start, ranges[j].end);
      assert ranges[..j + 1][..j] == ranges[..j];
      total := total + s;
    }
    assert ranges[..|ranges|] == ranges;
  }

  /** sumExtreme in main: sumValidExtreme summed over the ranges. */
  method ExtremeTotal(ranges: seq<Range>) returns (total: int)
    ensures total == PerRangeTotal(ranges)
  {
    total := 0;
    for j := 0 to |ranges|
      invariant total == PerRangeTotal(ranges[..j])
    {
      var s := SumValidExtreme(ranges[j].start, ranges[j].end);
      assert ranges[..j + 1][..j] == ranges[..j];
      total := total + s;
    }
    assert ranges[..|ranges|] == ranges;
  }

  /** No two ranges share an integer. */
  predicate PairwiseDisjoint(rs: seq<Range>) {
    forall i, j :: 0 <= i < j < |rs| ==> rs[i].end < rs[j].start || rs[j].end < rs[i].start
  }

  lemma PeriodicInSnoc(rs: seq<Range>, r: Range)
    ensures PeriodicIn(rs + [r]) == PeriodicIn(rs) + PeriodicIn([r])
  {
    forall v ensures InRanges(rs + [r], v) <==> InRanges(rs, v) || InRanges([r], v) {
      InRangesSnoc(rs, r, v);
    }
  }

  lemma PeriodicInDisjoint(rs: seq<Range>, r: Range)
    requires PairwiseDisjoint(rs + [r])
    ensures PeriodicIn(rs) !! PeriodicIn([r])
  {
    var t := rs + [r];
    forall v | v in PeriodicIn(rs) ensures v !in PeriodicIn([r]) {
      var i :| 0 <= i < |rs| && rs[i].start <= v <= rs[i].end;
      assert t[i] == rs[i] && t[|rs|] == r;
    }
  }

  lemma DisjointFront(rs: seq<Range>)
    requires |rs| > 0 && PairwiseDisjoint(rs)
    ensures PairwiseDisjoint(rs[..|rs| - 1])
  {
    var front := rs[..|rs| - 1];
    forall i, j | 0 <= i < j < |front|
      ensures front[i].end < front[j].start || front[j].end < front[i].start
    {
      assert front[i] == rs[i] && front[j] == rs[j];
    }
  }

  /** The sum over a union of non-negative sets is at most the sum of the
      parts' sums, and equal to it for disjoint parts. */
  lemma SumUnionBound(a: set<int>, b: set<int>)
    requires forall x :: x in a ==> x >= 0
    ensures Sum(a + b) <= Sum(a) + Sum(b)
    ensures a !! b ==> Sum(a + b) == Sum(a) + Sum(b)
  {
    SumUnion(a, b);
    SumNonNegative(a * b);
    if a !! b {
      assert a * b == {};
    }
  }

  /** The batch total never exceeds the per-range total, and equals it when
      the ranges are pairwise disjoint. */
  lemma {:induction false} BatchAtMostPerRange(rs: seq<Range>)
    ensures Sum(PeriodicIn(rs)) <= PerRangeTotal(rs)
    ensures PairwiseDisjoint(rs) ==> Sum(PeriodicIn(rs)) == PerRangeTotal(rs)
  {
    if rs == [] {
      assert PeriodicIn(rs) == {};
    } else {
      var front, last := rs[..|rs| - 1], rs[|rs| - 1];
      assert rs == front + [last];
      BatchAtMostPerRange(front);
      PeriodicInSnoc(front, last);
      SumUnionBound(PeriodicIn(front), PeriodicIn([last]));
      if PairwiseDisjoint(rs) {
        DisjointFront(rs);
        PeriodicInDisjoint(front, last);
      }
    }
  }

  /** Two copies of the range 11-11: the batch counts 11 once, main's
      per-range totals count it twice. */
  lemma OverlapCountsOnce()
    ensures Sum(PeriodicIn([Range(11, 11), Range(11, 11)])) == 11
    ensures PerRangeTotal([Range(11, 11), Range(11, 11)]) == 22
  {
    var one := [Range(11, 11)];
    var two := [Range(11, 11), Range(11, 11)];
    assert Digits(11) == "11";
    assert HasPeriod(Digits(11), 1);
    assert IsPeriodicNumber(11);
    assert InRanges(one, 11) by {
      assert one[0].start <= 11 <= one[0].end;
    }
    assert InRanges(two, 11) by {
      assert two[0].start <= 11 <= two[0].end;
    }
    Pow10TableCorrect();
    assert PeriodicIn(one) == {11};
    assert PeriodicIn(two) == {11};
    SumInsert({}, 11);
    assert {} + {11} == {11};
    assert two[..1] == one;
    assert one[..0] == [];
  }
}
