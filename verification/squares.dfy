/** Facts about the square of a real number.

    Everything outside this module speaks of `Sq(x)` and never of `x * x`,
    and each lemma here establishes one fact at a time: the solver copes with
    a square as an opaque quantity, but not with a square mixed into other
    arithmetic.
 */
module Squares {

  function Sq(x: real): real {
    x * x
  }

  lemma SqUnfold(x: real)
    ensures Sq(x) == x * x
  {
  }

  lemma MulPos(a: real, b: real)
    requires 0.0 < a && 0.0 < b
    ensures 0.0 < a * b
  {
  }

  lemma MulNeg(a: real, b: real)
    requires a < 0.0 && b < 0.0
    ensures 0.0 < a * b
  {
    MulPos(-a, -b);
    assert (-a) * (-b) == a * b;
  }

  /** Positivity as a predicate: once a fact about `x * x` is phrased through
      it, moving the fact to `Sq(x)` is a matter of equal arguments rather
      than arithmetic. */
  predicate Positive(r: real) {
    0.0 < r
  }

  predicate NonNegative(r: real) {
    0.0 <= r
  }

  lemma SquareNonNeg(x: real)
    ensures NonNegative(x * x)
  {
    if x > 0.0 { MulPos(x, x); } else if x < 0.0 { MulNeg(x, x); }
  }

  lemma SquarePos(x: real)
    requires x != 0.0
    ensures Positive(x * x)
  {
    if x > 0.0 { MulPos(x, x); } else { MulNeg(x, x); }
  }

  lemma SqNonNeg(x: real)
    ensures 0.0 <= Sq(x)
  {
    SquareNonNeg(x);
    SqUnfold(x);
    assert NonNegative(Sq(x));
  }

  lemma SqPos(x: real)
    requires x != 0.0
    ensures 0.0 < Sq(x)
  {
    SquarePos(x);
    SqUnfold(x);
    assert Positive(Sq(x));
  }

  lemma SqZeroAt(x: real)
    requires x == 0.0
    ensures Sq(x) == 0.0
  {
  }

  /** A square is zero exactly at zero. */
  lemma SqZero(x: real)
    ensures Sq(x) == 0.0 <==> x == 0.0
  {
    if x == 0.0 { SqZeroAt(x); } else { SqPos(x); }
  }
}
