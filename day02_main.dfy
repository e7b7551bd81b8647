/** day02/main.go: the brute-force answer. Every line holds comma-separated
    tokens start-end; for each token every integer of the range is tested
    with isValid and the valid ones are added. */
module BruteForce {
  import opened Wrappers
  import opened Decimal
  import opened GoStrings
  import opened SetSum
  import opened Periodic
  import opened PeriodicEngine
  import opened BatchEngine

  // ---------------------------------------------------------------------------
  // Input

  /** A token start-end: exactly two pieces around '-', each trimmed and read
      with Atoi; anything else is skipped. */
  function ParseToken(token: string): (r: Option<Range>)
    ensures r.Some? ==> r.value.start >= 0 && r.value.end >= 0
    ensures r.Some? <==> |Split(token, '-')| == 2
  {
    var parts := Split(token, '-');
    if |parts| != 2 then None
    else
      var a, b := TrimSpace(parts[0]), TrimSpace(parts[1]);
      assert '-' !in a && '-' !in b;
      Some(Range(Atoi(a), Atoi(b)))
  }

  /** The ranges of the first tokens, in order, skipping those that do not parse. */
  function TokenRanges(tokens: seq<string>): (rs: seq<Range>)
    ensures |rs| <= |tokens|
  {
    if tokens == [] then []
    else
      var front := TokenRanges(tokens[..|tokens| - 1]);
      match ParseToken(tokens[|tokens| - 1])
      case None => front
      case Some(r) => front + [r]
  }

  /** The ranges of one line; a blank line has none. */
  function LineRanges(line: string): seq<Range> {
    if TrimSpace(line) == [] then [] else TokenRanges(Split(line, ','))
  }

  /** The ranges of all lines, in order. */
  function AllRanges(lines: seq<string>): seq<Range> {
    if lines == [] then []
    else AllRanges(lines[..|lines| - 1]) + LineRanges(lines[|lines| - 1])
  }

  /** Every parsed bound is non-negative: '-' separates the bounds, so no
      piece carries a sign. */
  lemma {:induction false} TokenRangesNonNegative(tokens: seq<string>)
    ensures forall r :: r in TokenRanges(tokens) ==> r.start >= 0 && r.end >= 0
  {
    if tokens != [] {
      TokenRangesNonNegative(tokens[..|tokens| - 1]);
    }
  }

  /** A token written as Itoa(a) + "-" + Itoa(b) reads back as the range a-b. */
  lemma ParseFormatted(a: nat, b: nat)
    ensures ParseToken(Itoa(a) + "-" + Itoa(b)) == Some(Range(a, b))
  {
    var s, t := Itoa(a), Itoa(b);
    PlainDigits(a);
    PlainDigits(b);
    SplitFormatted(s, t);
    ParseTwoPieces(s + "-" + t, s, t);
    AtoiItoa(a);
    AtoiItoa(b);
  }

  lemma SplitFormatted(s: string, t: string)
    requires '-' !in s && '-' !in t
    ensures Split(s + "-" + t, '-') == [s, t]
  {
    assert s + "-" + t == s + ['-'] + t;
    SplitJoined(s, t, '-');
    SplitNoSep(t, '-');
  }

  lemma ParseTwoPieces(token: string, x: string, y: string)
    requires Split(token, '-') == [x, y]
    ensures ParseToken(token) == Some(Range(Atoi(TrimSpace(x)), Atoi(TrimSpace(y))))
  {
  }

  /** The digits of n hold neither white space nor '-'. */
  lemma PlainDigits(n: nat)
    ensures '-' !in Itoa(n) && TrimSpace(Itoa(n)) == Itoa(n)
  {
    var s := Digits(n);
    assert Itoa(n) == s;
    forall i | 0 <= i < |s| ensures !IsSpace(s[i]) && s[i] != '-' {
      DigitIsPlain(s[i]);
    }
    TrimSpaceNoSpace(s);
  }

  lemma DigitIsPlain(c: char)
    requires IsDigit(c)
    ensures !IsSpace(c) && c != '-'
  {
  }

  // ---------------------------------------------------------------------------
  // The brute-force sum

  /** The integers of start..end that pass a test. */
  ghost function Select(start: int, end: int, test: int -> bool): set<int> {
    set i: int | start <= i <= end && test(i)
  }

  /** The valid integers of start..end. */
  ghost function ValidSet(start: int, end: int): set<int> {
    Select(start, end, IsValid)
  }

  lemma SelectStep(start: int, i: int, test: int -> bool)
    requires start <= i
    ensures Select(start, i, test) == Select(start, i - 1, test) + (if test(i) then {i} else {})
  {
  }

  /** Testing i adds i to the sum exactly when i is valid. */
  lemma ValidSumStep(start: int, i: int)
    requires start <= i
    ensures Sum(ValidSet(start, i)) == Sum(ValidSet(start, i - 1)) + (if IsValid(i) then i else 0)
  {
    var before := ValidSet(start, i - 1);
    SelectStep(start, i, IsValid);
    if IsValid(i) {
      assert ValidSet(start, i) == before + {i};
      assert i !in before;
      SumInsert(before, i);
    } else {
      assert ValidSet(start, i) == before + {} && before + {} == before;
    }
  }

  lemma ValidSetEmpty(start: int, end: int)
    requires end < start
    ensures Sum(ValidSet(start, end)) == 0
  {
    assert ValidSet(start, end) == {};
  }

  /** The loop over i of one token: each valid i is added once. */
  method SumValidBruteForce(start: int, end: int) returns (total: int)
    ensures total == Sum(ValidSet(start, end))
  {
    total := 0;
    ValidSetEmpty(start, start - 1);
    var i := start;
    while i <= end
      invariant start <= i <= Max(start, end + 1)
      invariant total == Sum(ValidSet(start, i - 1))
    {
      ValidSumStep(start, i);
      if IsValid(i) {
        total := total + i;
      }
      i := i + 1;
    }
    if start <= end {
      assert i - 1 == end;
    } else {
      ValidSetEmpty(start, end);
      assert total == 0;
    }
  }

  /** The sum main prints for the given ranges. */
  ghost function BruteTotal(rs: seq<Range>): int {
    if rs == [] then 0
    else BruteTotal(rs[..|rs| - 1]) + Sum(ValidSet(rs[|rs| - 1].start, rs[|rs| - 1].end))
  }

  lemma {:induction false} BruteTotalAppend(a: seq<Range>, b: seq<Range>)
    ensures BruteTotal(a + b) == BruteTotal(a) + BruteTotal(b)
  {
    if b == [] {
      assert a + b == a;
    } else {
      var b' := b[..|b| - 1];
      assert (a + b)[..|a + b| - 1] == a + b';
      BruteTotalAppend(a, b');
    }
  }

  /** The sum of a parsed token's range; nothing for a token that does not parse. */
  ghost function TokenSum(r: Option<Range>): int {
    match r
    case None => 0
    case Some(range) => Sum(ValidSet(range.start, range.end))
  }

  /** One more token adds the sum of its range, or nothing when it does not parse. */
  lemma TokenRangesPrefix(tokens: seq<string>, j: int)
    requires 0 <= j < |tokens|
    ensures BruteTotal(TokenRanges(tokens[..j + 1]))
         == BruteTotal(TokenRanges(tokens[..j])) + TokenSum(ParseToken(tokens[j]))
  {
    var p := tokens[..j + 1];
    var front := TokenRanges(tokens[..j]);
    assert p[..|p| - 1] == tokens[..j] && p[|p| - 1] == tokens[j];
    var parsed := ParseToken(tokens[j]);
    if parsed.Some? {
      assert TokenRanges(p) == front + [parsed.value];
      assert (front + [parsed.value])[..|front|] == front;
    } else {
      assert TokenRanges(p) == front;
    }
  }

  /** ParseToken, as the loop of main computes it. */
  lemma ParseTokenParts(token: string)
    ensures var parts := Split(token, '-');
      ParseToken(token)
        == if |parts| != 2 then None else Some(Range(Atoi(TrimSpace(parts[0])), Atoi(TrimSpace(parts[1]))))
  {
  }

  /** The token loop of one line. */
  method LineTotal(line: string) returns (total: int)
    ensures total == BruteTotal(LineRanges(line))
  {
    total := 0;
    if TrimSpace(line) == [] {
      return;
    }
    var tokens := Split(line, ',');
    for j := 0 to |tokens|
      invariant total == BruteTotal(TokenRanges(tokens[..j]))
    {
      TokenRangesPrefix(tokens, j);
      ParseTokenParts(tokens[j]);
      var parts := Split(tokens[j], '-');
      if |parts| != 2 {
        continue;
      }
      var start := Atoi(TrimSpace(parts[0]));
      var end := Atoi(TrimSpace(parts[1]));
      var s := SumValidBruteForce(start, end);
      total := total + s;
    }
    assert tokens[..|tokens|] == tokens;
  }

  /** One more line adds that line's total. */
  lemma AllRangesPrefix(lines: seq<string>, i: int)
    requires 0 <= i < |lines|
    ensures BruteTotal(AllRanges(lines[..i + 1]))
         == BruteTotal(AllRanges(lines[..i])) + BruteTotal(LineRanges(lines[i]))
  {
    var p := lines[..i + 1];
    assert p[..|p| - 1] == lines[..i] && p[|p| - 1] == lines[i];
    assert AllRanges(p) == AllRanges(lines[..i]) + LineRanges(lines[i]);
    BruteTotalAppend(AllRanges(lines[..i]), LineRanges(lines[i]));
  }

  /** main's line loop: totalInvalidSum over all lines. */
  method Day02Total(lines: seq<string>) returns (total: int)
    ensures total == BruteTotal(AllRanges(lines))
  {
    total := 0;
    for i := 0 to |lines|
      invariant total == BruteTotal(AllRanges(lines[..i]))
    {
      var t := LineTotal(lines[i]);
      AllRangesPrefix(lines, i);
      total := total + t;
    }
    assert lines[..|lines|] == lines;
  }

  // ---------------------------------------------------------------------------
  // Agreement with the closed-form engine

  /** For ranges ending below 10^10, the valid integers are exactly the
      periodic numbers the engine enumerates. */
  lemma ValidSetIsPeriodicIn(r: Range)
    requires r.end < Pow10(MaxDigits)
    ensures ValidSet(r.start, r.end) == PeriodicIn([r])
  {
    forall v | v in ValidSet(r.start, r.end) ensures v in PeriodicIn([r]) {
      if v < 10 {
        NotValidBelowTen(v);
      }
      assert InRanges([r], v) by {
        assert [r][0] == r;
      }
    }
    forall v | v in PeriodicIn([r]) ensures v in ValidSet(r.start, r.end) {
      assert Itoa(v) == Digits(v);
    }
  }

  /** main's brute-force total equals the per-range engine totals
      (sumValidInRangeMath or sumValidExtreme range by range) whenever every
      range ends below 10^10. */
  lemma {:induction false} BruteTotalIsPerRangeTotal(rs: seq<Range>)
    requires forall i :: 0 <= i < |rs| ==> rs[i].end < Pow10(MaxDigits)
    ensures BruteTotal(rs) == PerRangeTotal(rs)
  {
    if rs != [] {
      var last := rs[|rs| - 1];
      BruteTotalIsPerRangeTotal(rs[..|rs| - 1]);
      ValidSetIsPeriodicIn(last);
    }
  }
}
