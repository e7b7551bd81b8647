/** The sum of a finite set of integers: each distinct value once. */
module SetSum {

  ghost function Sum(s: set<int>): int {
    if s == {} then 0 else var x := Pick(s); x + Sum(s - {x})
  }

  /** Some element of a non-empty set. */
  ghost function Pick(s: set<int>): (x: int)
    requires s != {}
    ensures x in s
  {
    NonEmpty(s);
    var x :| x in s; x
  }

  lemma NonEmpty(s: set<int>)
    requires s != {}
    ensures exists x :: x in s
  {
    if forall x :: x !in s {
      assert false;
    }
  }

  /** Taking any element out first gives the same sum. */
  lemma {:induction false} SumRemove(s: set<int>, y: int)
    requires y in s
    ensures Sum(s) == y + Sum(s - {y})
    decreases |s|
  {
    var x := Pick(s);
    if x != y {
      SumRemove(s - {x}, y);
      SumRemove(s - {y}, x);
      assert s - {x} - {y} == s - {y} - {x};
    }
  }

  /** Offering a value not yet present adds it to the sum. */
  lemma SumInsert(s: set<int>, x: int)
    requires x !in s
    ensures Sum(s + {x}) == Sum(s) + x
  {
    SumRemove(s + {x}, x);
    assert s + {x} - {x} == s;
  }

  lemma {:induction false} SumDisjointUnion(a: set<int>, b: set<int>)
    requires a !! b
    ensures Sum(a + b) == Sum(a) + Sum(b)
    decreases |b|
  {
    if b != {} {
      var y := Pick(b);
      SumDisjointUnion(a, b - {y});
      SumInsert(a + (b - {y}), y);
      SumInsert(b - {y}, y);
      assert a + (b - {y}) + {y} == a + b;
      assert b - {y} + {y} == b;
    } else {
      assert a + b == a;
    }
  }

  lemma {:induction false} SumNonNegative(s: set<int>)
    requires forall x :: x in s ==> x >= 0
    ensures Sum(s) >= 0
    decreases |s|
  {
    if s != {} {
      var y := Pick(s);
      SumNonNegative(s - {y});
    }
  }

  /** Inclusion and exclusion: the sum of a union plus the sum of the
      intersection is the sum of the two sets. */
  lemma SumUnion(a: set<int>, b: set<int>)
    ensures Sum(a + b) + Sum(a * b) == Sum(a) + Sum(b)
  {
    SumDisjointUnion(a, b - a);
    assert a + (b - a) == a + b;
    SumDisjointUnion(b - a, a * b);
    assert (b - a) + a * b == b;
  }
}
