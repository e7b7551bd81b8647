/** day01/main.go: a dial with positions 0..99 starts at 50. Each line is a
    direction character and a number of clicks; the program counts how often
    the dial comes to rest on 0 after a click. Whole turns of 100 clicks are
    counted without simulating them, the remaining clicks one by one. */
module Dial {
  import opened GoInt
  import opened GoStrings

  /** The dial position and the number of zeros counted so far. */
  datatype State = State(pos: int, count: int)

  const Initial: State := State(50, 0)

  /** One click: 'L' turns down, wrapping 0 to 99; any other direction turns
      up, wrapping 99 to 0. */
  function Click(pos: int, left: bool): (r: int)
    ensures 0 <= pos < 100 ==> 0 <= r < 100 && r == if left then (pos - 1) % 100 else (pos + 1) % 100
  {
    if left then (if pos - 1 < 0 then 99 else pos - 1)
    else (if pos + 1 > 99 then 0 else pos + 1)
  }

  /** The position after k clicks in one direction. */
  function Walk(pos: int, left: bool, k: nat): int {
    if k == 0 then pos else Click(Walk(pos, left, k - 1), left)
  }

  /** The number of the first k clicks after which the dial reads 0. */
  function ZerosOnWalk(pos: int, left: bool, k: nat): nat {
    if k == 0 then 0
    else ZerosOnWalk(pos, left, k - 1) + (if Walk(pos, left, k) == 0 then 1 else 0)
  }

  /** How far the dial is, in clicks, from its first zero (0 meaning a full turn). */
  function Offset(pos: int, left: bool): int {
    if left then (100 - pos) % 100 else pos
  }

  // ---------------------------------------------------------------------------
  // Closed forms

  lemma ModShift(x: int, d: int)
    ensures ((x % 100) + d) % 100 == (x + d) % 100
  {
    var q := x / 100;
    assert x == 100 * q + x % 100;
    assert (x + d) == 100 * q + ((x % 100) + d);
  }

  /** After k clicks the dial reads pos - k or pos + k, modulo 100. */
  lemma {:induction false} WalkClosedForm(pos: int, left: bool, k: nat)
    requires 0 <= pos < 100
    ensures Walk(pos, left, k) == if left then (pos - k) % 100 else (pos + k) % 100
    ensures 0 <= Walk(pos, left, k) < 100
  {
    if k > 0 {
      WalkClosedForm(pos, left, k - 1);
      if left {
        ModShift(pos - (k - 1), -1);
      } else {
        ModShift(pos + (k - 1), 1);
      }
    }
  }

  /** The k-th click lands on 0 exactly when k + Offset is a multiple of 100. */
  lemma LandsOnZero(pos: int, left: bool, k: nat)
    requires 0 <= pos < 100
    ensures Walk(pos, left, k) == 0 <==> (k + Offset(pos, left)) % 100 == 0
  {
    WalkClosedForm(pos, left, k);
    if left {
      var n := k - pos;
      NegatedMultiple(n);
      assert pos - k == -n;
      if pos > 0 {
        assert Offset(pos, left) == 100 - pos;
        AddHundred(n);
        assert k + Offset(pos, left) == n + 100;
      } else {
        assert Offset(pos, left) == 0 && n == k;
      }
    }
  }

  lemma AddHundred(n: int)
    ensures (n + 100) % 100 == n % 100
  {
    var q := n / 100;
    assert n == 100 * q + n % 100;
    assert n + 100 == 100 * (q + 1) + n % 100;
  }

  lemma NegatedMultiple(n: int)
    ensures (-n) % 100 == 0 <==> n % 100 == 0
  {
    var q := n / 100;
    assert n == 100 * q + n % 100;
    assert -n == 100 * (-q) - n % 100;
  }

  lemma DivStep(n: int)
    requires n >= 1
    ensures n / 100 == (n - 1) / 100 + (if n % 100 == 0 then 1 else 0)
  {
    var q := (n - 1) / 100;
    assert n - 1 == 100 * q + (n - 1) % 100;
  }

  /** Counted click by click, the zeros number (k + Offset) / 100. */
  lemma {:induction false} ZerosClosedForm(pos: int, left: bool, k: nat)
    requires 0 <= pos < 100
    ensures ZerosOnWalk(pos, left, k) == (k + Offset(pos, left)) / 100
  {
    var off := Offset(pos, left);
    assert 0 <= off < 100;
    if k > 0 {
      ZerosClosedForm(pos, left, k - 1);
      LandsOnZero(pos, left, k);
      DivStep(k + off);
    }
  }

  lemma SplitTurns(t: nat, off: int)
    requires 0 <= off < 100
    ensures t / 100 + (t % 100 + off) / 100 == (t + off) / 100
  {
    var q := t / 100;
    assert t + off == 100 * q + (t % 100 + off);
  }

  lemma AddTurns(x: int, q: int)
    ensures (x + 100 * q) % 100 == x % 100
  {
    var d := x / 100;
    assert x == 100 * d + x % 100;
    assert x + 100 * q == 100 * (d + q) + x % 100;
  }

  /** Counting t / 100 whole turns and walking only t % 100 clicks ends where
      walking all t clicks ends and counts the same zeros. */
  lemma ShortcutIsFullWalk(pos: int, left: bool, t: nat)
    requires 0 <= pos < 100
    ensures Walk(pos, left, t % 100) == Walk(pos, left, t)
    ensures Quot(t, 100) + ZerosOnWalk(pos, left, t % 100) == ZerosOnWalk(pos, left, t)
  {
    WalkClosedForm(pos, left, t);
    WalkClosedForm(pos, left, t % 100);
    var q := t / 100;
    assert t == 100 * q + t % 100;
    if left {
      AddTurns(pos - t, q);
      assert pos - t + 100 * q == pos - t % 100;
    } else {
      AddTurns(pos + t % 100, q);
      assert pos + t % 100 + 100 * q == pos + t;
    }
    ZerosClosedForm(pos, left, t);
    ZerosClosedForm(pos, left, t % 100);
    SplitTurns(t, Offset(pos, left));
  }

  // ---------------------------------------------------------------------------
  // The program

  /** The effect of one line: an empty line changes nothing; otherwise the
      count grows by the quotient turns / 100 and by the zeros met on the
      remaining clicks, which Go's remainder makes none for negative turns. */
  function Apply(s: State, line: string): State {
    if |line| == 0 then s
    else
      var left := line[0] == 'L';
      var turns := Atoi(line[1..]);
      var rest := if Rem(turns, 100) > 0 then Rem(turns, 100) else 0;
      State(Walk(s.pos, left, rest), s.count + Quot(turns, 100) + ZerosOnWalk(s.pos, left, rest))
  }

  /** The state after the given lines. */
  function Run(lines: seq<string>): State {
    if lines == [] then Initial else Apply(Run(lines[..|lines| - 1]), lines[|lines| - 1])
  }

  /** A line with a non-negative number of clicks moves the dial by exactly
      that many clicks and counts every zero on the way. */
  lemma ApplyIsFullWalk(s: State, line: string)
    requires 0 <= s.pos < 100 && |line| > 0 && Atoi(line[1..]) >= 0
    ensures var t := Atoi(line[1..]);
      Apply(s, line) == State(Walk(s.pos, line[0] == 'L', t), s.count + ZerosOnWalk(s.pos, line[0] == 'L', t))
  {
    ShortcutIsFullWalk(s.pos, line[0] == 'L', Atoi(line[1..]));
  }

  /** The dial never leaves 0..99. */
  lemma {:induction false} RunInRange(lines: seq<string>)
    ensures 0 <= Run(lines).pos < 100
  {
    if lines != [] {
      var front := lines[..|lines| - 1];
      var line := lines[|lines| - 1];
      RunInRange(front);
      if |line| > 0 {
        var rest := if Rem(Atoi(line[1..]), 100) > 0 then Rem(Atoi(line[1..]), 100) else 0;
        WalkClosedForm(Run(front).pos, line[0] == 'L', rest);
      }
    }
  }

  /** Without a minus sign in the input the count never decreases. */
  lemma CountGrows(s: State, line: string)
    requires '-' !in line
    ensures Apply(s, line).count >= s.count
  {
    if |line| > 0 {
      assert '-' !in line[1..] by {
        assert forall c :: c in line[1..] ==> c in line;
      }
    }
  }

  /** One line of main: whole turns first, then the remainder click by click. */
  method Turn(pos: int, count: int, line: string) returns (pos': int, count': int)
    ensures State(pos', count') == Apply(State(pos, count), line)
  {
    if |line| == 0 {
      return pos, count;
    }
    var left := line[0] == 'L';
    var turns := Atoi(line[1..]);
    count' := count + Quot(turns, 100);
    var remainder := Rem(turns, 100);
    ghost var rest := if remainder > 0 then remainder else 0;
    pos' := pos;
    var i := 0;
    while i < remainder
      invariant 0 <= i <= rest
      invariant pos' == Walk(pos, left, i)
      invariant count' == count + Quot(turns, 100) + ZerosOnWalk(pos, left, i)
    {
      if left {
        pos' := pos' - 1;
        if pos' < 0 {
          pos' := 99;
        }
      } else {
        pos' := pos' + 1;
        if pos' > 99 {
          pos' := 0;
        }
      }
      if pos' == 0 {
        count' := count' + 1;
      }
      i := i + 1;
    }
  }

  /** main: the count printed after all lines. */
  method Day01(lines: seq<string>) returns (count: int)
    ensures count == Run(lines).count
  {
    var pos := Initial.pos;
    count := Initial.count;
    for j := 0 to |lines|
      invariant State(pos, count) == Run(lines[..j])
    {
      assert lines[..j + 1][..j] == lines[..j];
      pos, count := Turn(pos, count, lines[j]);
    }
    assert lines[..|lines|] == lines;
  }
}
