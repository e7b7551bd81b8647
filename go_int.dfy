/** Go's integer division and remainder by a positive divisor. Go truncates
    toward zero, so for a negative dividend they differ from Dafny's
    Euclidean / and %. */
module GoInt {

  /** a / b in Go, for b > 0. */
  function Quot(a: int, b: int): (q: int)
    requires b > 0
    ensures a >= 0 ==> q * b <= a < q * b + b
    ensures a < 0 ==> q * b - b < a <= q * b
  {
    if a >= 0 then a / b else -((-a) / b)
  }

  /** a % b in Go, for b > 0: it has the sign of a. */
  function Rem(a: int, b: int): (m: int)
    requires b > 0
    ensures a >= 0 ==> m == a % b
    ensures a < 0 ==> -b < m <= 0
  {
    if a >= 0 then a % b else -((-a) % b)
  }

  /** Quotient and remainder put a back together, as Go guarantees. */
  lemma QuotRem(a: int, b: int)
    requires b > 0
    ensures Quot(a, b) * b + Rem(a, b) == a
  {
  }
}
