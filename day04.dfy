/** day04/main.go: a grid of rows in which '@' marks a roll of paper. Pass
    after pass, in row-major order, every '@' with fewer than four '@' among
    its eight neighbours is replaced by 'x' (later cells of the same pass see
    earlier replacements); the passes stop after one that replaces nothing,
    and the program prints how many cells were replaced. */
module PaperRolls {

  type Grid = seq<string>

  /** The eight offsets, in the order the source lists them. */
  const Directions: seq<(int, int)> := [(1, 0), (0, 1), (1, 1), (1, -1), (-1, 0), (0, -1), (-1, -1), (-1, 1)]

  /** They are exactly the king moves, each once. */
  lemma DirectionsAreKingMoves()
    ensures |Directions| == 8
    ensures forall i, j :: 0 <= i < j < 8 ==> Directions[i] != Directions[j]
    ensures forall d: (int, int) :: d in Directions <==> -1 <= d.0 <= 1 && -1 <= d.1 <= 1 && d != (0, 0)
  {
    forall d: (int, int) | -1 <= d.0 <= 1 && -1 <= d.1 <= 1 && d != (0, 0) ensures d in Directions {
      if d.0 == 1 {
        assert d == Directions[0] || d == Directions[2] || d == Directions[3];
      } else if d.0 == 0 {
        assert d == Directions[1] || d == Directions[5];
      } else {
        assert d == Directions[4] || d == Directions[6] || d == Directions[7];
      }
    }
  }

  /** Row i exists, column j exists in that row, and the cell holds '@'. */
  predicate IsRoll(g: Grid, i: int, j: int) {
    0 <= i < |g| && 0 <= j < |g[i]| && g[i][j] == '@'
  }

  /** How many of the offsets dirs lead from (r, c) to an '@'. */
  function RollsAround(g: Grid, r: int, c: int, dirs: seq<(int, int)>): (n: nat)
    ensures n <= |dirs|
  {
    if dirs == [] then 0
    else
      var d := dirs[|dirs| - 1];
      RollsAround(g, r, c, dirs[..|dirs| - 1]) + (if IsRoll(g, r + d.0, c + d.1) then 1 else 0)
  }

  /** surroundingSum: the neighbouring '@' cells, out-of-bounds ones skipped. */
  function Neighbours(g: Grid, r: int, c: int): (n: nat)
    ensures n <= 8
  {
    RollsAround(g, r, c, Directions)
  }

  /** The direction loop. */
  method CountNeighbours(g: Grid, r: int, c: int) returns (surroundingSum: int)
    ensures surroundingSum == Neighbours(g, r, c)
  {
    surroundingSum := 0;
    for k := 0 to |Directions|
      invariant surroundingSum == RollsAround(g, r, c, Directions[..k])
    {
      var dir := Directions[k];
      assert Directions[..k + 1][..k] == Directions[..k];
      var rowIdx := r + dir.0;
      var colIdx := c + dir.1;
      if rowIdx < 0 || rowIdx >= |g| || colIdx < 0 || colIdx >= |g[rowIdx]| {
        continue;
      }
      if g[rowIdx][colIdx] == '@' {
        surroundingSum := surroundingSum + 1;
      }
    }
    assert Directions[..|Directions|] == Directions;
  }

  // ---------------------------------------------------------------------------
  // Counting rolls and comparing grids

  /** The number of '@' cells. */
  function AtCount(g: Grid): nat {
    if g == [] then 0 else AtCount(g[..|g| - 1]) + multiset(g[|g| - 1])['@']
  }

  predicate SameShape(a: Grid, b: Grid) {
    |a| == |b| && forall i :: 0 <= i < |a| ==> |a[i]| == |b[i]|
  }

  /** b is a with some '@' cells replaced by 'x' and nothing else changed. */
  predicate OnlyRemovals(a: Grid, b: Grid) {
    SameShape(a, b)
    && forall i, j :: 0 <= i < |a| && 0 <= j < |a[i]| ==>
      b[i][j] == a[i][j] || (a[i][j] == '@' && b[i][j] == 'x')
  }

  lemma OnlyRemovalsTransitive(a: Grid, b: Grid, c: Grid)
    requires OnlyRemovals(a, b) && OnlyRemovals(b, c)
    ensures OnlyRemovals(a, c)
  {
  }

  /** Replacing row r changes the count by the difference of the rows' counts. */
  lemma {:induction false} AtCountUpdate(g: Grid, r: int, row: string)
    requires 0 <= r < |g|
    ensures AtCount(g[r := row]) == AtCount(g) - multiset(g[r])['@'] + multiset(row)['@']
  {
    var h := g[r := row];
    if r < |g| - 1 {
      assert h[..|h| - 1] == g[..|g| - 1][r := row];
      AtCountUpdate(g[..|g| - 1], r, row);
    } else {
      assert h[..|h| - 1] == g[..|g| - 1];
    }
  }

  /** allLines[row][:col] + "x" + allLines[row][col+1:]. */
  function RemoveAt(g: Grid, r: int, c: int): (h: Grid)
    requires 0 <= r < |g| && 0 <= c < |g[r]|
    ensures OnlyRemovals(g, h) || g[r][c] != '@'
    ensures SameShape(g, h)
  {
    g[r := g[r][..c] + "x" + g[r][c + 1..]]
  }

  /** Removing a roll lowers the count by one. */
  lemma RemoveAtCount(g: Grid, r: int, c: int)
    requires 0 <= r < |g| && 0 <= c < |g[r]| && g[r][c] == '@'
    ensures AtCount(RemoveAt(g, r, c)) == AtCount(g) - 1
  {
    var s := g[r];
    assert s == s[..c] + [s[c]] + s[c + 1..];
    AtCountUpdate(g, r, s[..c] + "x" + s[c + 1..]);
  }

  // ---------------------------------------------------------------------------
  // One pass, as a function

  /** One cell of a pass. */
  function Visit(g: Grid, r: int, c: int): (h: Grid)
    requires 0 <= r < |g| && 0 <= c < |g[r]|
    ensures SameShape(g, h)
  {
    if g[r][c] == '@' && Neighbours(g, r, c) < 4 then RemoveAt(g, r, c) else g
  }

  /** The cells c, c+1, ... of row r, in order. */
  function SweepRow(g: Grid, r: int, c: nat): (h: Grid)
    requires 0 <= r < |g|
    ensures SameShape(g, h)
    decreases |g[r]| - c
  {
    if c >= |g[r]| then g else SweepRow(Visit(g, r, c), r, c + 1)
  }

  /** The rows r, r+1, ..., in order. */
  function SweepRows(g: Grid, r: nat): (h: Grid)
    ensures SameShape(g, h)
    decreases |g| - r
  {
    if r >= |g| then g else SweepRows(SweepRow(g, r, 0), r + 1)
  }

  /** One pass of the outer loop. */
  function Pass(g: Grid): Grid {
    SweepRows(g, 0)
  }

  /** Passes until one removes nothing; that last pass leaves the grid as it was. */
  function Settle(g: Grid): Grid
    decreases AtCount(g)
  {
    if AtCount(Pass(g)) < AtCount(g) then Settle(Pass(g)) else g
  }

  // ---------------------------------------------------------------------------
  // What a pass does

  /** A visit only removes, and lowers the count exactly when it changes the grid. */
  lemma VisitEffect(g: Grid, r: int, c: int)
    requires 0 <= r < |g| && 0 <= c < |g[r]|
    ensures OnlyRemovals(g, Visit(g, r, c))
    ensures AtCount(Visit(g, r, c)) <= AtCount(g)
    ensures AtCount(Visit(g, r, c)) == AtCount(g) ==> Visit(g, r, c) == g
  {
    if g[r][c] == '@' && Neighbours(g, r, c) < 4 {
      RemoveAtCount(g, r, c);
    }
  }

  /** A visit that removes nothing leaves a cell that is '@' with at least four '@' neighbours,
      or is not '@'. */
  lemma VisitKept(g: Grid, r: int, c: int)
    requires 0 <= r < |g| && 0 <= c < |g[r]| && Visit(g, r, c) == g
    ensures g[r][c] == '@' ==> Neighbours(g, r, c) >= 4
  {
    if g[r][c] == '@' && Neighbours(g, r, c) < 4 {
      RemoveAtCount(g, r, c);
    }
  }

  /** Every '@' of row r from column c on has at least four '@' neighbours. */
  ghost predicate StableFrom(g: Grid, r: int, c: int)
    requires 0 <= r < |g|
  {
    forall j :: 0 <= j && c <= j < |g[r]| && g[r][j] == '@' ==> Neighbours(g, r, j) >= 4
  }

  lemma StableFromStep(g: Grid, r: int, c: nat)
    requires 0 <= r < |g| && c < |g[r]|
    requires StableFrom(g, r, c + 1) && (g[r][c] == '@' ==> Neighbours(g, r, c) >= 4)
    ensures StableFrom(g, r, c)
  {
  }

  lemma {:induction false} SweepRowEffect(g: Grid, r: int, c: nat)
    requires 0 <= r < |g|
    ensures OnlyRemovals(g, SweepRow(g, r, c))
    ensures AtCount(SweepRow(g, r, c)) <= AtCount(g)
    ensures AtCount(SweepRow(g, r, c)) == AtCount(g) ==> SweepRow(g, r, c) == g && StableFrom(g, r, c)
    decreases |g[r]| - c
  {
    if c < |g[r]| {
      var h := Visit(g, r, c);
      VisitEffect(g, r, c);
      SweepRowEffect(h, r, c + 1);
      var k := SweepRow(h, r, c + 1);
      assert SweepRow(g, r, c) == k;
      OnlyRemovalsTransitive(g, h, k);
      if AtCount(k) == AtCount(g) {
        assert AtCount(h) == AtCount(g);
        assert h == g;
        VisitKept(g, r, c);
        StableFromStep(g, r, c);
      }
    }
  }

  /** Every '@' from row r on has at least four '@' neighbours. */
  ghost predicate StableRows(g: Grid, r: int) {
    forall i :: r <= i < |g| && 0 <= i ==> StableFrom(g, i, 0)
  }

  lemma StableRowsStep(g: Grid, r: nat)
    requires r < |g| && StableFrom(g, r, 0) && StableRows(g, r + 1)
    ensures StableRows(g, r)
  {
  }

  lemma {:induction false} SweepRowsEffect(g: Grid, r: nat)
    ensures OnlyRemovals(g, SweepRows(g, r))
    ensures AtCount(SweepRows(g, r)) <= AtCount(g)
    ensures AtCount(SweepRows(g, r)) == AtCount(g) ==> SweepRows(g, r) == g && StableRows(g, r)
    decreases |g| - r
  {
    if r < |g| {
      var h := SweepRow(g, r, 0);
      SweepRowEffect(g, r, 0);
      SweepRowsEffect(h, r + 1);
      var k := SweepRows(h, r + 1);
      assert SweepRows(g, r) == k;
      OnlyRemovalsTransitive(g, h, k);
      if AtCount(k) == AtCount(g) {
        assert AtCount(h) == AtCount(g);
        assert h == g;
        StableRowsStep(g, r);
      }
    }
  }

  /** Every '@' of the grid has at least four '@' neighbours. */
  ghost predicate Stable(g: Grid) {
    forall i, j :: 0 <= i < |g| && 0 <= j < |g[i]| && g[i][j] == '@' ==> Neighbours(g, i, j) >= 4
  }

  /** The passes only ever replace '@' by 'x'; when they stop, every remaining
      '@' has at least four '@' neighbours. */
  lemma {:induction false} SettleEffect(g: Grid)
    ensures OnlyRemovals(g, Settle(g))
    ensures Stable(Settle(g))
    decreases AtCount(g)
  {
    SweepRowsEffect(g, 0);
    if AtCount(Pass(g)) < AtCount(g) {
      SettleEffect(Pass(g));
      OnlyRemovalsTransitive(g, Pass(g), Settle(Pass(g)));
    } else {
      forall i, j | 0 <= i < |g| && 0 <= j < |g[i]| && g[i][j] == '@'
        ensures Neighbours(g, i, j) >= 4
      {
        assert StableFrom(g, i, 0);
      }
    }
  }

  // ---------------------------------------------------------------------------
  // The program

  /** One pass of main, updating the grid in place cell by cell. */
  method SweepPass(grid: Grid, totalSum: int) returns (grid': Grid, removed: bool, totalSum': int)
    ensures grid' == Pass(grid)
    ensures totalSum' == totalSum + AtCount(grid) - AtCount(grid')
    ensures removed <==> AtCount(grid') < AtCount(grid)
    ensures AtCount(grid') <= AtCount(grid)
  {
    grid', removed, totalSum' := grid, false, totalSum;
    var row := 0;
    while row < |grid'|
      invariant 0 <= row <= |grid'|
      invariant SweepRows(grid', row) == Pass(grid)
      invariant totalSum' == totalSum + AtCount(grid) - AtCount(grid')
      invariant removed <==> AtCount(grid') < AtCount(grid)
      invariant AtCount(grid') <= AtCount(grid)
    {
      ghost var start := grid';
      var col := 0;
      while col < |grid'[row]|
        invariant SameShape(start, grid')
        invariant 0 <= col <= |grid'[row]|
        invariant SweepRows(SweepRow(grid', row, col), row + 1) == Pass(grid)
        invariant totalSum' == totalSum + AtCount(grid) - AtCount(grid')
        invariant removed <==> AtCount(grid') < AtCount(grid)
        invariant AtCount(grid') <= AtCount(grid)
      {
        if grid'[row][col] != '@' {
          col := col + 1;
          continue;
        }
        var surroundingSum := CountNeighbours(grid', row, col);
        if surroundingSum < 4 {
          RemoveAtCount(grid', row, col);
          grid' := grid'[row := grid'[row][..col] + "x" + grid'[row][col + 1..]];
          removed := true;
          totalSum' := totalSum' + 1;
        }
        col := col + 1;
      }
      row := row + 1;
    }
  }

  /** main: passes until one removes nothing; returns the number of removed
      cells and the final grid. */
  method RemoveRolls(allLines: Grid) returns (totalSum: int, grid: Grid)
    ensures grid == Settle(allLines)
    ensures totalSum == AtCount(allLines) - AtCount(grid)
  {
    totalSum := 0;
    grid := allLines;
    while true
      invariant Settle(grid) == Settle(allLines)
      invariant totalSum == AtCount(allLines) - AtCount(grid)
      decreases AtCount(grid)
    {
      var removed;
      var next;
      next, removed, totalSum := SweepPass(grid, totalSum);
      if !removed {
        assert Settle(grid) == grid;
        break;
      }
      grid := next;
    }
  }
}
