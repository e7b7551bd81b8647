/** day06/main.go: a worksheet of five rows, four of numbers written in
    columns and one of operators. Scanning the columns right to left, each
    column that is not blank yields the number its digits spell top to
    bottom; a blank column closes the current problem, whose numbers are
    added up under '+' and multiplied otherwise, and the grand total sums
    the problems' values. */
module Worksheet {
  import opened GoStrings

  /** The scan's variables: grandTotal, problemNums and problemOp. */
  datatype Scan = Scan(total: int, nums: seq<int>, op: char)

  /** problemOp starts as the zero rune. */
  const Start: Scan := Scan(0, [], 0 as char)

  /** col < len(row) && row[col] != ' '. */
  predicate Filled(row: string, col: nat) {
    col < |row| && row[col] != ' '
  }

  /** All five rows hold a space at col or end before it. */
  predicate BlankColumn(rows: seq<string>, col: nat)
    requires |rows| >= 5
  {
    forall r :: 0 <= r < 5 ==> !Filled(rows[r], col)
  }

  /** The characters of the first n rows at col, top to bottom, spaces skipped. */
  function NumberText(rows: seq<string>, col: nat, n: nat): (s: string)
    requires n <= |rows|
    ensures |s| <= n && ' ' !in s
  {
    if n == 0 then ""
    else NumberText(rows, col, n - 1) + (if Filled(rows[n - 1], col) then [rows[n - 1][col]] else "")
  }

  function SumOf(xs: seq<int>): int {
    if xs == [] then 0 else SumOf(xs[..|xs| - 1]) + xs[|xs| - 1]
  }

  function ProductOf(xs: seq<int>): int {
    if xs == [] then 1 else ProductOf(xs[..|xs| - 1]) * xs[|xs| - 1]
  }

  /** A problem's value: its numbers added under '+', multiplied under any other operator. */
  function ProblemValue(op: char, nums: seq<int>): int {
    if op == '+' then SumOf(nums) else ProductOf(nums)
  }

  // ---------------------------------------------------------------------------
  // The scan, as functions

  /** The number a column reads: none when its four number rows hold only
      spaces there. */
  function ReadAt(rows: seq<string>, col: nat): (r: seq<int>)
    requires |rows| >= 5
    ensures |r| <= 1
  {
    var text := NumberText(rows, col, 4);
    if text != "" then [Atoi(text)] else []
  }

  /** What the scan needs to know of one column: whether it is blank, the
      number it reads, if any, and its character in the operator row. */
  datatype Column = Column(blank: bool, read: seq<int>, opChar: char)

  function ColumnAt(rows: seq<string>, col: nat): (c: Column)
    requires |rows| >= 5 && col < |rows[4]|
    ensures c.blank == BlankColumn(rows, col) && |c.read| <= 1
  {
    Column(BlankColumn(rows, col), ReadAt(rows, col), rows[4][col])
  }

  /** Columns k - 1 down to 0, in the order the scan meets them. */
  function ColumnsDown(rows: seq<string>, k: nat): (cs: seq<Column>)
    requires |rows| >= 5 && k <= |rows[4]|
    ensures |cs| == k
  {
    if k == 0 then [] else [ColumnAt(rows, k - 1)] + ColumnsDown(rows, k - 1)
  }

  /** A blank column closes the open problem, if there is one. */
  predicate Closes(c: Column, s: Scan) {
    c.blank && |s.nums| > 0
  }

  /** One column of the scan. */
  function Step(c: Column, s: Scan): (t: Scan)
    ensures Closes(c, s) ==> t.total == s.total + ProblemValue(s.op, s.nums) && t.nums == []
    ensures !Closes(c, s) ==> t.total == s.total && t.nums == s.nums + c.read
  {
    if Closes(c, s) then Scan(s.total + ProblemValue(s.op, s.nums), [], s.op)
    else Scan(s.total, s.nums + c.read, if c.opChar == '+' || c.opChar == '*' then c.opChar else s.op)
  }

  /** The scan over a sequence of columns. */
  function Run(cs: seq<Column>, s: Scan): Scan {
    if cs == [] then s else Run(cs[1..], Step(cs[0], s))
  }

  /** After column 0, a problem still open is added too. */
  function Finish(s: Scan): int {
    if |s.nums| > 0 then s.total + ProblemValue(s.op, s.nums) else s.total
  }

  /** What main prints: the scan runs across the operator row's width. */
  function GrandTotal(rows: seq<string>): int
    requires |rows| >= 5
  {
    Finish(Run(ColumnsDown(rows, |rows[4]|), Start))
  }

  // ---------------------------------------------------------------------------
  // Properties of the scan

  /** A blank column reads no number and holds no operator. */
  lemma BlankColumnReadsNothing(rows: seq<string>, col: nat)
    requires |rows| >= 5 && col < |rows[4]| && BlankColumn(rows, col)
    ensures ColumnAt(rows, col).read == [] && ColumnAt(rows, col).opChar == ' '
  {
    assert !Filled(rows[0], col) && !Filled(rows[1], col) && !Filled(rows[2], col) && !Filled(rows[3], col);
    assert NumberText(rows, col, 1) == "";
    assert NumberText(rows, col, 2) == "";
    assert NumberText(rows, col, 3) == "";
    assert NumberText(rows, col, 4) == "";
    assert !Filled(rows[4], col);
  }

  /** A blank column while no problem is open changes nothing. */
  lemma BlankColumnWithoutProblem(rows: seq<string>, col: nat, s: Scan)
    requires |rows| >= 5 && col < |rows[4]| && BlankColumn(rows, col) && s.nums == []
    ensures Step(ColumnAt(rows, col), s) == s
  {
    BlankColumnReadsNothing(rows, col);
    assert s.nums + [] == s.nums;
  }

  /** A blank column taken twice is a blank column taken once: repeated
      separators close one problem only. */
  lemma BlankColumnTwice(rows: seq<string>, col: nat, s: Scan)
    requires |rows| >= 5 && col < |rows[4]| && BlankColumn(rows, col)
    ensures var c := ColumnAt(rows, col); Step(c, Step(c, s)) == Step(c, s)
  {
    var t := Step(ColumnAt(rows, col), s);
    if s.nums == [] {
      BlankColumnWithoutProblem(rows, col, s);
    } else {
      BlankColumnWithoutProblem(rows, col, t);
    }
  }

  /** The problems a scan closes, in order, as (operator, numbers). */
  function ClosedDuring(cs: seq<Column>, s: Scan): seq<(char, seq<int>)> {
    if cs == [] then []
    else (if Closes(cs[0], s) then [(s.op, s.nums)] else []) + ClosedDuring(cs[1..], Step(cs[0], s))
  }

  /** The numbers a scan reads, in order. */
  function ReadDuring(cs: seq<Column>, s: Scan): seq<int> {
    if cs == [] then []
    else (if Closes(cs[0], s) then [] else cs[0].read) + ReadDuring(cs[1..], Step(cs[0], s))
  }

  function TotalValue(ps: seq<(char, seq<int>)>): int {
    if ps == [] then 0 else ProblemValue(ps[0].0, ps[0].1) + TotalValue(ps[1..])
  }

  function Flatten(ps: seq<(char, seq<int>)>): seq<int> {
    if ps == [] then [] else ps[0].1 + Flatten(ps[1..])
  }

  /** The total grows by exactly the values of the problems closed. */
  lemma {:induction false} RunTotal(cs: seq<Column>, s: Scan)
    ensures Run(cs, s).total == s.total + TotalValue(ClosedDuring(cs, s))
  {
    if cs != [] {
      var t := Step(cs[0], s);
      RunTotal(cs[1..], t);
      var rest := ClosedDuring(cs[1..], t);
      if Closes(cs[0], s) {
        assert ([(s.op, s.nums)] + rest)[1..] == rest;
      } else {
        assert [] + rest == rest;
      }
    }
  }

  /** Every number read belongs, in reading order, to exactly one problem: a
      closed one or the one still open. */
  lemma {:induction false} RunNumbers(cs: seq<Column>, s: Scan)
    ensures s.nums + ReadDuring(cs, s) == Flatten(ClosedDuring(cs, s)) + Run(cs, s).nums
  {
    if cs != [] {
      var t := Step(cs[0], s);
      var rest := ClosedDuring(cs[1..], t);
      var later := ReadDuring(cs[1..], t);
      var last := Run(cs[1..], t).nums;
      RunNumbers(cs[1..], t);
      if Closes(cs[0], s) {
        FlattenCons((s.op, s.nums), rest);
        CloseRegroup(s.nums, t.nums, later, Flatten(rest), last);
      } else {
        assert [] + rest == rest;
        ReadRegroup(s.nums, cs[0].read, t.nums, later, Flatten(rest) + last);
      }
    }
  }

  lemma FlattenCons(p: (char, seq<int>), ps: seq<(char, seq<int>)>)
    ensures Flatten([p] + ps) == p.1 + Flatten(ps)
  {
    assert ([p] + ps)[1..] == ps;
  }

  /** A column that closes a problem: its numbers move to the closed ones. */
  lemma CloseRegroup(current: seq<int>, next: seq<int>, later: seq<int>, closed: seq<int>, rest: seq<int>)
    requires next == [] && next + later == closed + rest
    ensures current + ([] + later) == (current + closed) + rest
  {
  }

  /** A column that reads: its number joins the open problem. */
  lemma ReadRegroup(current: seq<int>, read: seq<int>, next: seq<int>, later: seq<int>, total: seq<int>)
    requires next == current + read && next + later == total
    ensures current + (read + later) == total
  {
  }

  /** The grand total is the sum of the closed problems' values plus the
      value of the problem open after column 0. */
  lemma GrandTotalIsSumOfProblems(rows: seq<string>)
    requires |rows| >= 5
    ensures var cs := ColumnsDown(rows, |rows[4]|); var last := Run(cs, Start);
      GrandTotal(rows) == TotalValue(ClosedDuring(cs, Start))
        + (if |last.nums| > 0 then ProblemValue(last.op, last.nums) else 0)
  {
    RunTotal(ColumnsDown(rows, |rows[4]|), Start);
  }

  // ---------------------------------------------------------------------------
  // The program

  /** The isAllSpaces loop over the five rows. */
  method ColumnIsBlank(rows: seq<string>, col: nat) returns (isAllSpaces: bool)
    requires |rows| >= 5
    ensures isAllSpaces == BlankColumn(rows, col)
  {
    isAllSpaces := true;
    var row := 0;
    while row < 5
      invariant 0 <= row <= 5
      invariant isAllSpaces && forall r :: 0 <= r < row ==> !Filled(rows[r], col)
    {
      if col < |rows[row]| && rows[row][col] != ' ' {
        isAllSpaces := false;
        break;
      }
      row := row + 1;
    }
  }

  /** The numStr loop over the four number rows. */
  method ColumnText(rows: seq<string>, col: nat) returns (numStr: string)
    requires |rows| >= 5
    ensures numStr == NumberText(rows, col, 4)
  {
    numStr := "";
    for row := 0 to 4
      invariant numStr == NumberText(rows, col, row)
    {
      if col < |rows[row]| && rows[row][col] != ' ' {
        numStr := numStr + [rows[row][col]];
      }
    }
  }

  /** The fold of a problem's numbers, starting from the first. */
  method FoldProblem(problemNums: seq<int>, problemOp: char) returns (result: int)
    requires |problemNums| > 0
    ensures result == ProblemValue(problemOp, problemNums)
  {
    result := problemNums[0];
    assert problemNums[..1][..0] == [];
    assert SumOf(problemNums[..1]) == problemNums[0];
    assert ProductOf(problemNums[..1]) == problemNums[0];
    for i := 1 to |problemNums|
      invariant result == ProblemValue(problemOp, problemNums[..i])
    {
      assert problemNums[..i + 1][..i] == problemNums[..i];
      if problemOp == '+' {
        result := result + problemNums[i];
      } else {
        result := result * problemNums[i];
      }
    }
    assert problemNums[..|problemNums|] == problemNums;
  }

  /** The body of the column loop: a blank column with an open problem
      closes it; any other column appends its number, if any, and takes its
      operator, if any. */
  method ScanColumn(rows: seq<string>, col: nat, grandTotal: int, problemNums: seq<int>, problemOp: char)
    returns (grandTotal': int, problemNums': seq<int>, problemOp': char)
    requires |rows| >= 5 && col < |rows[4]|
    ensures Scan(grandTotal', problemNums', problemOp') == Step(ColumnAt(rows, col), Scan(grandTotal, problemNums, problemOp))
  {
    grandTotal', problemNums', problemOp' := grandTotal, problemNums, problemOp;
    var isAllSpaces := ColumnIsBlank(rows, col);
    if isAllSpaces && |problemNums| > 0 {
      var result := FoldProblem(problemNums, problemOp);
      grandTotal' := grandTotal + result;
      problemNums' := [];
      return;
    }
    var opChar := rows[4][col];
    var numStr := ColumnText(rows, col);
    if numStr != "" {
      var num := Atoi(numStr);
      problemNums' := problemNums + [num];
    }
    if opChar == '+' || opChar == '*' {
      problemOp' := opChar;
    }
  }

  /** main: the right-to-left column scan and the final problem. The input
      must have at least five rows: the source slices rows[:4] and reads rows[4]. */
  method Day06(rows: seq<string>) returns (grandTotal: int)
    requires |rows| >= 5
    ensures grandTotal == GrandTotal(rows)
  {
    var maxWidth := |rows[4]|;
    grandTotal := 0;
    var problemNums: seq<int> := [];
    var problemOp: char := 0 as char;
    var col := maxWidth - 1;
    while col >= 0
      invariant -1 <= col < maxWidth
      invariant Run(ColumnsDown(rows, col + 1), Scan(grandTotal, problemNums, problemOp))
             == Run(ColumnsDown(rows, maxWidth), Start)
    {
      ghost var before := Scan(grandTotal, problemNums, problemOp);
      ghost var cs := ColumnsDown(rows, col + 1);
      assert cs == [ColumnAt(rows, col)] + ColumnsDown(rows, col);
      assert cs[1..] == ColumnsDown(rows, col);
      grandTotal, problemNums, problemOp := ScanColumn(rows, col, grandTotal, problemNums, problemOp);
      col := col - 1;
    }
    ghost var last := Scan(grandTotal, problemNums, problemOp);
    assert ColumnsDown(rows, 0) == [];
    assert GrandTotal(rows) == Finish(last);
    if |problemNums| > 0 {
      var result := FoldProblem(problemNums, problemOp);
      grandTotal := grandTotal + result;
    }
  }
}
