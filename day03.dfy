/** findMaxKDigits of day03/main.go: the largest number that can be written
    with k digits of a line taken in their original order, chosen greedily
    one digit at a time. The line is a sequence of bytes, and a digit is the
    byte minus '0' in byte arithmetic, so it wraps modulo 256 for bytes that
    are not digits. */
module Joltage {
  import opened Decimal

  type Byte = b: int | 0 <= b < 256

  /** int(line[j] - '0'): the subtraction happens on bytes. */
  function DigitOf(b: Byte): (d: int)
    ensures 0 <= d < 256
    ensures 48 <= b <= 57 ==> d == b - 48
  {
    (b - 48) % 256
  }

  predicate AllDigitBytes(line: seq<Byte>) {
    forall j :: 0 <= j < |line| ==> 48 <= line[j] <= 57
  }

  /** A choice of k positions of the line, strictly increasing. */
  ghost predicate IsPick(line: seq<Byte>, k: int, P: seq<int>) {
    && |P| == k
    && (forall t :: 0 <= t < |P| ==> 0 <= P[t] < |line|)
    && (forall t :: 0 < t < |P| ==> P[t - 1] < P[t])
  }

  predicate InLine(line: seq<Byte>, P: seq<int>) {
    forall t :: 0 <= t < |P| ==> 0 <= P[t] < |line|
  }

  /** The number written by the digits at the chosen positions. */
  function PickValue(line: seq<Byte>, P: seq<int>): int
    requires InLine(line, P)
  {
    if P == [] then 0
    else PickValue(line, P[..|P| - 1]) * 10 + DigitOf(line[P[|P| - 1]])
  }

  /** A pick leaves room after its t-th position for the k - t - 1 that follow. */
  lemma {:induction false} PickRoom(line: seq<Byte>, k: int, P: seq<int>, t: int)
    requires IsPick(line, k, P) && 0 <= t < k
    ensures P[t] + (k - t) <= |line|
    decreases k - t
  {
    if t < k - 1 {
      PickRoom(line, k, P, t + 1);
    }
  }

  lemma PickValueStep(line: seq<Byte>, P: seq<int>, i: int)
    requires InLine(line, P) && 0 <= i < |P|
    ensures InLine(line, P[..i]) && InLine(line, P[..i + 1])
    ensures PickValue(line, P[..i + 1]) == PickValue(line, P[..i]) * 10 + DigitOf(line[P[i]])
  {
    assert P[..i + 1][..i] == P[..i];
  }

  /** The inner loop: the leftmost greatest digit of line[from..to), or 0 at
      position from when the window is empty. */
  method MaxInWindow(line: seq<Byte>, from: int, to: int) returns (maxDigit: int, maxPos: int)
    requires 0 <= from && to <= |line|
    ensures from < to ==> from <= maxPos < to && maxDigit == DigitOf(line[maxPos])
    ensures from >= to ==> maxDigit == 0 && maxPos == from
    ensures forall t :: from <= t < to ==> DigitOf(line[t]) <= maxDigit
    ensures forall t :: from <= t < maxPos ==> DigitOf(line[t]) < maxDigit
  {
    maxDigit := 0;
    maxPos := from;
    var j := from;
    while j < to
      invariant from <= j <= if from < to then to else from
      invariant from <= maxPos && (maxPos < j || maxPos == from)
      invariant j > from ==> maxDigit == DigitOf(line[maxPos])
      invariant j == from ==> maxDigit == 0
      invariant forall t :: from <= t < j ==> DigitOf(line[t]) <= maxDigit
      invariant forall t :: from <= t < maxPos ==> DigitOf(line[t]) < maxDigit
    {
      var digit := DigitOf(line[j]);
      if digit > maxDigit {
        maxDigit := digit;
        maxPos := j;
      }
      j := j + 1;
    }
  }

  /** One greedy step keeps every pick at or below the greedy prefix, and a
      pick that ties with it sits no further left. */
  lemma GreedyStep(line: seq<Byte>, k: int, P: seq<int>, i: int, c: int,
                   R: int, maxDigit: int, maxPos: int)
    requires AllDigitBytes(line) && IsPick(line, k, P) && 0 <= i < k
    requires i == 0 ==> c == 0
    requires PickValue(line, P[..i]) <= R
    requires i > 0 && PickValue(line, P[..i]) == R ==> P[i - 1] >= c - 1
    requires 0 <= c <= maxPos < |line| - (k - i - 1) && maxDigit == DigitOf(line[maxPos])
    requires forall t :: c <= t < |line| - (k - i - 1) ==> DigitOf(line[t]) <= maxDigit
    requires forall t :: c <= t < maxPos ==> DigitOf(line[t]) < maxDigit
    ensures PickValue(line, P[..i + 1]) <= R * 10 + maxDigit
    ensures PickValue(line, P[..i + 1]) == R * 10 + maxDigit ==> P[i] >= maxPos
  {
    PickValueStep(line, P, i);
    var prev := PickValue(line, P[..i]);
    var d := DigitOf(line[P[i]]);
    assert d <= 9;
    if prev == R {
      PickRoom(line, k, P, i);
      assert c <= P[i] < |line| - (k - i - 1);
    }
  }

  /** What the greedy loop knows after i rounds, for a line of digits and
      0 <= k <= |line|: G are the positions chosen so far, strictly
      increasing, R the number they write and c the next position to look
      at; no pick writes more than R with its first i digits, and a pick that
      writes R has its i-th position no further left than G's. */
  ghost predicate Greedy(line: seq<Byte>, k: int, i: int, G: seq<int>, R: int, c: int) {
    && 0 <= i <= k
    && |G| == i && InLine(line, G) && R == PickValue(line, G)
    && (forall t :: 0 < t < |G| ==> G[t - 1] < G[t])
    && (i == 0 ==> c == 0) && (i > 0 ==> c == G[i - 1] + 1)
    && c + (k - i) <= |line|
    && forall P :: IsPick(line, k, P) ==>
      PickValue(line, P[..i]) <= R
      && (i > 0 && PickValue(line, P[..i]) == R ==> P[i - 1] >= c - 1)
  }

  /** Taking the leftmost greatest digit of the window keeps the greedy invariant. */
  lemma GreedyAdvance(line: seq<Byte>, k: int, i: int, G: seq<int>, R: int, c: int,
                      maxDigit: int, maxPos: int)
    requires AllDigitBytes(line) && i < k && Greedy(line, k, i, G, R, c)
    requires c <= maxPos < |line| - (k - i - 1) && maxDigit == DigitOf(line[maxPos])
    requires forall t :: c <= t < |line| - (k - i - 1) ==> DigitOf(line[t]) <= maxDigit
    requires forall t :: c <= t < maxPos ==> DigitOf(line[t]) < maxDigit
    ensures Greedy(line, k, i + 1, G + [maxPos], R * 10 + maxDigit, maxPos + 1)
  {
    var G' := G + [maxPos];
    assert G'[..i] == G;
    forall P | IsPick(line, k, P)
      ensures PickValue(line, P[..i + 1]) <= R * 10 + maxDigit
      ensures PickValue(line, P[..i + 1]) == R * 10 + maxDigit ==> P[i] >= maxPos
    {
      GreedyStep(line, k, P, i, c, R, maxDigit, maxPos);
    }
  }

  /** After k rounds the greedy positions form a pick no pick beats. */
  lemma GreedyDone(line: seq<Byte>, k: int, G: seq<int>, R: int, c: int)
    requires Greedy(line, k, k, G, R, c)
    ensures IsPick(line, k, G) && PickValue(line, G) == R
    ensures forall P :: IsPick(line, k, P) ==> PickValue(line, P) <= R
  {
    forall P | IsPick(line, k, P) ensures PickValue(line, P) <= R {
      assert P[..k] == P;
    }
  }

  lemma BoundStep(R: int, d: int, i: nat)
    requires 0 <= R < Pow10(i) && 0 <= d <= 9
    ensures 0 <= R * 10 + d < Pow10(i + 1)
  {
  }

  /** findMaxKDigits(line, k). */
  method FindMaxKDigits(line: seq<Byte>, k: int) returns (result: int)
    ensures k <= 0 ==> result == 0
    ensures AllDigitBytes(line) ==> 0 <= result < Pow10(if k > 0 then k else 0)
    ensures AllDigitBytes(line) && 0 <= k <= |line| ==>
      (exists G :: IsPick(line, k, G) && PickValue(line, G) == result)
      && (forall P :: IsPick(line, k, P) ==> PickValue(line, P) <= result)
  {
    var n := |line|;
    ghost var good := AllDigitBytes(line) && 0 <= k <= n;
    ghost var G: seq<int> := [];
    result := 0;
    var currentIdx := 0;
    var i := 0;
    while i < k
      invariant 0 <= i && (k >= 0 ==> i <= k) && (k < 0 ==> i == 0)
      invariant 0 <= currentIdx && (i == 0 ==> result == 0)
      invariant AllDigitBytes(line) ==> 0 <= result < Pow10(i)
      invariant good ==> Greedy(line, k, i, G, result, currentIdx)
    {
      var remaining := k - i - 1;
      var searchEnd := n - remaining;
      var maxDigit, maxPos := MaxInWindow(line, currentIdx, searchEnd);
      if AllDigitBytes(line) {
        assert maxDigit <= 9;
        BoundStep(result, maxDigit, i);
      }
      if good {
        GreedyAdvance(line, k, i, G, result, currentIdx, maxDigit, maxPos);
        G := G + [maxPos];
      }
      result := result * 10 + maxDigit;
      currentIdx := maxPos + 1;
      i := i + 1;
    }
    assert i == if k > 0 then k else 0;
    if good {
      GreedyDone(line, k, G, result, currentIdx);
    }
  }
}
