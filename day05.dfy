/** day05/main.go: the lines before the first blank line are ranges
    start-end; they are sorted by start and merged, and the program prints
    how many integers the ranges cover together. */
module FreshRanges {
  import opened GoStrings

  /** The integers lo..hi, both included. */
  datatype Interval = Interval(lo: int, hi: int)

  // ---------------------------------------------------------------------------
  // Reading the ranges

  /** The ranges a trimmed line contributes: one when it splits into exactly
      two pieces around '-' (read with Atoi, untrimmed), none otherwise. */
  function RangeOfLine(line: string): (rs: seq<Interval>)
    ensures |rs| <= 1
    ensures forall k :: 0 <= k < |rs| ==> rs[k].lo >= 0 && rs[k].hi >= 0
  {
    var parts := Split(line, '-');
    if |parts| == 2 then [Interval(Atoi(parts[0]), Atoi(parts[1]))] else []
  }

  predicate IsBlank(line: string) {
    TrimSpace(line) == []
  }

  /** The ranges of the lines up to the first blank one. */
  function RangesBefore(lines: seq<string>): seq<Interval> {
    if lines == [] || IsBlank(lines[0]) then []
    else RangeOfLine(TrimSpace(lines[0])) + RangesBefore(lines[1..])
  }

  /** Lines after a blank line contribute nothing, whatever they hold. */
  lemma {:induction false} IgnoredAfterBlank(before: seq<string>, blank: string, after: seq<string>)
    requires IsBlank(blank)
    ensures RangesBefore(before + [blank] + after) == RangesBefore(before)
  {
    var all := before + [blank] + after;
    if before == [] {
      assert all[0] == blank;
    } else {
      assert all[0] == before[0] && all[1..] == before[1..] + [blank] + after;
      IgnoredAfterBlank(before[1..], blank, after);
    }
  }

  /** None of the lines is blank. */
  predicate NoBlank(lines: seq<string>) {
    lines == [] || (!IsBlank(lines[0]) && NoBlank(lines[1..]))
  }

  lemma {:induction false} NoBlankSnoc(lines: seq<string>, line: string)
    requires NoBlank(lines) && !IsBlank(line)
    ensures NoBlank(lines + [line])
  {
    var all := lines + [line];
    if lines == [] {
      assert all == [line] && all[1..] == [];
    } else {
      assert all[0] == lines[0] && all[1..] == lines[1..] + [line];
      NoBlankSnoc(lines[1..], line);
    }
  }

  /** A first line that is not blank contributes its ranges ahead of the rest. */
  lemma RangesBeforeCons(lines: seq<string>)
    requires lines != [] && !IsBlank(lines[0])
    ensures RangesBefore(lines) == RangeOfLine(TrimSpace(lines[0])) + RangesBefore(lines[1..])
  {
  }

  /** Reading one more line while no blank line has been seen. */
  lemma {:induction false} RangesBeforeSnoc(lines: seq<string>, line: string)
    requires NoBlank(lines)
    ensures RangesBefore(lines + [line])
         == RangesBefore(lines) + (if IsBlank(line) then [] else RangeOfLine(TrimSpace(line)))
  {
    var all := lines + [line];
    var tail := if IsBlank(line) then [] else RangeOfLine(TrimSpace(line));
    if lines == [] {
      assert all == [line] && all[1..] == [];
      assert RangesBefore(all) == tail by {
        if !IsBlank(line) {
          RangesBeforeCons(all);
          assert tail + [] == tail;
        }
      }
    } else {
      var head, rest := lines[0], lines[1..];
      var first := RangeOfLine(TrimSpace(head));
      assert all[0] == head && all[1..] == rest + [line];
      assert !IsBlank(head) && NoBlank(rest);
      RangesBeforeSnoc(rest, line);
      RangesBeforeCons(all);
      RangesBeforeCons(lines);
      Associative(first, RangesBefore(rest), tail);
    }
  }

  lemma Associative(a: seq<Interval>, b: seq<Interval>, c: seq<Interval>)
    ensures a + (b + c) == (a + b) + c
  {
  }

  lemma PrefixSnoc<T>(s: seq<T>, i: int)
    requires 0 <= i < |s|
    ensures s[..i + 1] == s[..i] + [s[i]]
  {
  }

  lemma PrefixSplit<T>(s: seq<T>, i: int)
    requires 0 <= i < |s|
    ensures s == s[..i] + [s[i]] + s[i + 1..]
  {
  }

  /** The reading loop of main: isRange turns false at the first blank line. */
  method CollectRanges(lines: seq<string>) returns (ranges: seq<Interval>)
    ensures ranges == RangesBefore(lines)
  {
    ranges := [];
    var isRange := true;
    assert lines[..0] == [];
    ghost var firstBlank := |lines|;
    for i := 0 to |lines|
      invariant isRange ==> NoBlank(lines[..i]) && ranges == RangesBefore(lines[..i])
      invariant !isRange ==>
        (0 <= firstBlank < i && IsBlank(lines[firstBlank]) && ranges == RangesBefore(lines[..firstBlank]))
    {
      var line := TrimSpace(lines[i]);
      if isRange {
        RangesBeforeSnoc(lines[..i], lines[i]);
        PrefixSnoc(lines, i);
        if |line| != 0 {
          NoBlankSnoc(lines[..i], lines[i]);
        }
      }
      if |line| == 0 {
        if isRange {
          firstBlank := i;
        }
        isRange := false;
        continue;
      }
      if isRange {
        var rangeParts := Split(line, '-');
        if |rangeParts| == 2 {
          var start := Atoi(rangeParts[0]);
          var end := Atoi(rangeParts[1]);
          ranges := ranges + [Interval(start, end)];
        }
      }
    }
    if !isRange {
      PrefixSplit(lines, firstBlank);
      IgnoredAfterBlank(lines[..firstBlank], lines[firstBlank], lines[firstBlank + 1..]);
    } else {
      assert lines[..|lines|] == lines;
    }
  }

  // ---------------------------------------------------------------------------
  // What the ranges cover

  /** The integers lo..hi; hi - lo + 1 of them, or none when hi < lo. */
  function Span(lo: int, hi: int): (s: set<int>)
    ensures forall x :: x in s <==> lo <= x <= hi
    ensures |s| == if lo <= hi then hi - lo + 1 else 0
    decreases hi - lo
  {
    if hi < lo then {} else Span(lo, hi - 1) + {hi}
  }

  /** Two spans that overlap or touch make one. */
  lemma SpanJoin(a: int, b: int, c: int, d: int)
    requires a <= b && a <= c <= b + 1 && c <= d
    ensures Span(a, b) + Span(c, d) == Span(a, if b < d then d else b)
  {
    var e := if b < d then d else b;
    forall x ensures x in Span(a, b) + Span(c, d) <==> x in Span(a, e) {
      assert x in Span(a, b) <==> a <= x <= b;
      assert x in Span(c, d) <==> c <= x <= d;
      assert x in Span(a, e) <==> a <= x <= e;
    }
  }

  /** Every integer in at least one of the ranges. */
  function Cover(rs: seq<Interval>): set<int> {
    if rs == [] then {} else Cover(rs[..|rs| - 1]) + Span(rs[|rs| - 1].lo, rs[|rs| - 1].hi)
  }

  lemma {:induction false} CoverMember(rs: seq<Interval>, x: int)
    ensures x in Cover(rs) <==> exists iv :: iv in rs && iv.lo <= x <= iv.hi
  {
    if rs != [] {
      var front, last := rs[..|rs| - 1], rs[|rs| - 1];
      CoverMember(front, x);
      assert rs == front + [last];
      if x in Cover(rs) {
        if x in Cover(front) {
          var iv :| iv in front && iv.lo <= x <= iv.hi;
          assert iv in rs;
        } else {
          assert last in rs && last.lo <= x <= last.hi;
        }
      } else {
        forall iv | iv in rs ensures !(iv.lo <= x <= iv.hi) {
          if iv != last {
            assert iv in front;
          }
        }
      }
    }
  }

  /** The cover depends only on which ranges there are, not on their order. */
  lemma CoverPermutation(a: seq<Interval>, b: seq<Interval>)
    requires multiset(a) == multiset(b)
    ensures Cover(a) == Cover(b)
  {
    forall x ensures x in Cover(a) <==> x in Cover(b) {
      CoverMember(a, x);
      CoverMember(b, x);
      forall iv ensures iv in a <==> iv in b {
        assert iv in a <==> iv in multiset(a);
        assert iv in b <==> iv in multiset(b);
      }
    }
  }

  // ---------------------------------------------------------------------------
  // Sorting by start

  predicate SortedByStart(rs: seq<Interval>) {
    forall i, j :: 0 <= i < j < |rs| ==> rs[i].lo <= rs[j].lo
  }

  /** x inserted before the first range that does not start before it. */
  function Insert(x: Interval, rs: seq<Interval>): (r: seq<Interval>)
    requires SortedByStart(rs)
    ensures SortedByStart(r) && multiset(r) == multiset(rs) + multiset{x}
    ensures |r| == |rs| + 1
  {
    if rs == [] || x.lo <= rs[0].lo then [x] + rs
    else
      var tail := Insert(x, rs[1..]);
      assert rs == [rs[0]] + rs[1..];
      StartsFrom(rs[0].lo, x, rs[1..], tail);
      ConsSorted(rs[0], tail);
      assert multiset([rs[0]] + tail) == multiset{rs[0]} + multiset(tail);
      [rs[0]] + tail
  }

  /** A permutation of rest and x starts no lower than they all do. */
  lemma StartsFrom(b: int, x: Interval, rest: seq<Interval>, tail: seq<Interval>)
    requires b <= x.lo && forall k :: 0 <= k < |rest| ==> b <= rest[k].lo
    requires multiset(tail) == multiset(rest) + multiset{x}
    ensures forall k :: 0 <= k < |tail| ==> b <= tail[k].lo
  {
    forall k | 0 <= k < |tail| ensures b <= tail[k].lo {
      assert tail[k] in multiset(rest) + multiset{x};
      if tail[k] != x {
        assert tail[k] in rest;
      }
    }
  }

  lemma ConsSorted(head: Interval, tail: seq<Interval>)
    requires SortedByStart(tail) && forall k :: 0 <= k < |tail| ==> head.lo <= tail[k].lo
    ensures SortedByStart([head] + tail)
  {
    var r := [head] + tail;
    forall i, j | 0 <= i < j < |r| ensures r[i].lo <= r[j].lo {
      assert r[j] == tail[j - 1];
      if i > 0 {
        assert r[i] == tail[i - 1];
      }
    }
  }

  /** sort.Slice by start, written as an insertion sort. */
  function SortByStart(rs: seq<Interval>): (r: seq<Interval>)
    ensures SortedByStart(r) && multiset(r) == multiset(rs)
    ensures |r| == |rs|
  {
    if rs == [] then []
    else
      assert rs == rs[..|rs| - 1] + [rs[|rs| - 1]];
      Insert(rs[|rs| - 1], SortByStart(rs[..|rs| - 1]))
  }

  // ---------------------------------------------------------------------------
  // Merging

  predicate WellFormed(rs: seq<Interval>) {
    forall i :: 0 <= i < |rs| ==> rs[i].lo <= rs[i].hi
  }

  /** What the merge loop knows after the first i ranges: the closed blocks
      cover done, which lies entirely below cs - 1 (so a gap separates it from
      the open block cs..ce), and totalSum counts done. */
  ghost predicate Merged(rs: seq<Interval>, i: int, done: set<int>, cs: int, ce: int, totalSum: int) {
    && 1 <= i <= |rs|
    && Cover(rs[..i]) == done + Span(cs, ce)
    && (forall x :: x in done ==> x < cs - 1)
    && cs <= ce
    && (forall j :: i <= j < |rs| ==> cs <= rs[j].lo)
    && totalSum == |done|
  }

  lemma MergeStart(rs: seq<Interval>)
    requires |rs| > 0 && WellFormed(rs) && SortedByStart(rs)
    ensures Merged(rs, 1, {}, rs[0].lo, rs[0].hi, 0)
  {
    assert rs[..1][..0] == [];
  }

  /** A range starting at most one past the open block extends it. */
  lemma MergeExtend(rs: seq<Interval>, i: int, done: set<int>, cs: int, ce: int, totalSum: int)
    requires WellFormed(rs) && SortedByStart(rs) && i < |rs|
    requires Merged(rs, i, done, cs, ce, totalSum) && rs[i].lo <= ce + 1
    ensures Merged(rs, i + 1, done, cs, if ce < rs[i].hi then rs[i].hi else ce, totalSum)
  {
    var r := rs[i];
    var ce' := if ce < r.hi then r.hi else ce;
    CoverPrefix(rs, i);
    assert r.lo <= r.hi && cs <= r.lo;
    SpanJoin(cs, ce, r.lo, r.hi);
    UnionAssociative(done, Span(cs, ce), Span(r.lo, r.hi));
  }

  /** The first i + 1 ranges cover what the first i cover, and range i. */
  lemma CoverPrefix(rs: seq<Interval>, i: int)
    requires 0 <= i < |rs|
    ensures Cover(rs[..i + 1]) == Cover(rs[..i]) + Span(rs[i].lo, rs[i].hi)
  {
    var p := rs[..i + 1];
    assert p[..|p| - 1] == rs[..i] && p[|p| - 1] == rs[i];
  }

  lemma UnionAssociative(a: set<int>, b: set<int>, c: set<int>)
    ensures (a + b) + c == a + (b + c)
  {
  }

  /** A range starting further on closes the open block and opens its own. */
  lemma MergeClose(rs: seq<Interval>, i: int, done: set<int>, cs: int, ce: int, totalSum: int)
    requires WellFormed(rs) && SortedByStart(rs) && i < |rs|
    requires Merged(rs, i, done, cs, ce, totalSum) && rs[i].lo > ce + 1
    ensures Merged(rs, i + 1, done + Span(cs, ce), rs[i].lo, rs[i].hi, totalSum + (ce - cs + 1))
  {
    CoverPrefix(rs, i);
    assert done !! Span(cs, ce);
  }

  /** The merge loop over sorted ranges. The list must be non-empty: the
      source reads ranges[0]. */
  method MergeCount(ranges: seq<Interval>) returns (totalSum: int)
    requires |ranges| > 0
    ensures WellFormed(ranges) && SortedByStart(ranges) ==> totalSum == |Cover(ranges)|
  {
    totalSum := 0;
    ghost var good := WellFormed(ranges) && SortedByStart(ranges);
    ghost var done: set<int> := {};
    var currentStart := ranges[0].lo;
    var currentEnd := ranges[0].hi;
    if good {
      MergeStart(ranges);
    }
    for i := 1 to |ranges|
      invariant good ==> Merged(ranges, i, done, currentStart, currentEnd, totalSum)
    {
      var r := ranges[i];
      if r.lo <= currentEnd + 1 {
        if good {
          MergeExtend(ranges, i, done, currentStart, currentEnd, totalSum);
        }
        currentEnd := if currentEnd < r.hi then r.hi else currentEnd;
      } else {
        if good {
          MergeClose(ranges, i, done, currentStart, currentEnd, totalSum);
          done := done + Span(currentStart, currentEnd);
        }
        totalSum := totalSum + (currentEnd - currentStart + 1);
        currentStart := r.lo;
        currentEnd := r.hi;
      }
    }
    if good {
      assert ranges[..|ranges|] == ranges;
      assert done !! Span(currentStart, currentEnd);
    }
    totalSum := totalSum + (currentEnd - currentStart + 1);
  }

  /** main: read, sort, merge. Ranges must exist before the first blank line. */
  method CountFresh(lines: seq<string>) returns (totalSum: int)
    requires |RangesBefore(lines)| > 0
    ensures WellFormed(RangesBefore(lines)) ==> totalSum == |Cover(RangesBefore(lines))|
  {
    var ranges := CollectRanges(lines);
    var sorted := SortByStart(ranges);
    totalSum := MergeCount(sorted);
    if WellFormed(ranges) {
      assert WellFormed(sorted) by {
        forall i | 0 <= i < |sorted| ensures sorted[i].lo <= sorted[i].hi {
          assert sorted[i] in multiset(ranges);
        }
      }
      CoverPermutation(sorted, ranges);
    }
  }
}
