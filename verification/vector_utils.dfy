/** Dot product, Euclidean norm and cosine similarity over vectors of reals.

    `Math.sqrt` is not definable here, so the square root is a parameter
    `sqrt` and every property that needs it assumes `IsSqrt(sqrt)`: the
    function returns the non-negative square root of each non-negative real.
 */
module VectorUtils {

  import opened Squares
  import opened Basics

  type Vector = seq<real>

  ghost predicate IsSqrt(sqrt: real -> real) {
    forall x :: 0.0 <= x ==> 0.0 <= sqrt(x) && Sq(sqrt(x)) == x
  }

  /** Sum of `a[i] * b[i]` over the indices both vectors have. */
  function Dot(a: Vector, b: Vector): real
  {
    if |a| == 0 || |b| == 0 then 0.0 else a[0] * b[0] + Dot(a[1..], b[1..])
  }

  /** `VectorUtils.dotProduct`: the Java loop over `i < min(a.size(), b.size())`. */
  method DotProduct(a: Vector, b: Vector) returns (sum: real)
    ensures sum == Dot(a, b)
    ensures sum == Dot(a[..Min(|a|, |b|)], b[..Min(|a|, |b|)])
  {
    var n := Min(|a|, |b|);
    sum := 0.0;
    var i := 0;
    while i < n
      invariant 0 <= i <= n
      invariant sum + Dot(a[i..], b[i..]) == Dot(a, b)
    {
      assert a[i..][1..] == a[i + 1..] && b[i..][1..] == b[i + 1..];
      sum := sum + a[i] * b[i];
      i := i + 1;
    }
    DotTruncates(a, b);
  }

  /** Only the first `min(|a|, |b|)` indices contribute to the dot product. */
  lemma {:induction false} DotTruncates(a: Vector, b: Vector)
    ensures Dot(a, b) == Dot(a[..Min(|a|, |b|)], b[..Min(|a|, |b|)])
  {
    var n := Min(|a|, |b|);
    if n > 0 {
      DotTruncates(a[1..], b[1..]);
      assert a[..n][1..] == a[1..][..n - 1];
      assert b[..n][1..] == b[1..][..n - 1];
    }
  }

  /** Trailing components of the longer vector do not matter. */
  lemma {:induction false} DotIgnoresTail(a: Vector, b: Vector, tail: Vector)
    requires |b| <= |a|
    ensures Dot(a + tail, b) == Dot(a, b)
    ensures Dot(b, a + tail) == Dot(b, a)
  {
    if |b| > 0 {
      assert (a + tail)[1..] == a[1..] + tail;
      DotIgnoresTail(a[1..], b[1..], tail);
    }
  }

  lemma {:induction false} DotSymmetric(a: Vector, b: Vector)
    ensures Dot(a, b) == Dot(b, a)
  {
    if |a| > 0 && |b| > 0 {
      DotSymmetric(a[1..], b[1..]);
    }
  }

  /** Example: `dotProduct([1, 2, 3], [1, 1]) == 3`. */
  lemma DotTruncationExample()
    ensures Dot([1.0, 2.0, 3.0], [1.0, 1.0]) == 3.0
  {
    assert [1.0, 2.0, 3.0][1..] == [2.0, 3.0];
    assert [2.0, 3.0][1..] == [3.0];
    assert [1.0, 1.0][1..] == [1.0];
    assert [1.0][1..] == [];
  }

  predicate IsZero(v: Vector) {
    forall i :: 0 <= i < |v| ==> v[i] == 0.0
  }

  /** The sum of squares under `norm`'s square root. */
  function SumSquares(v: Vector): (r: real)
    ensures 0.0 <= r
    ensures IsZero(v) ==> r == 0.0
    ensures !IsZero(v) ==> 0.0 < r
  {
    if |v| == 0 then 0.0
    else
      var rest := SumSquares(v[1..]);
      SqNonNeg(v[0]);
      SqZero(v[0]);
      assert IsZero(v) <==> v[0] == 0.0 && IsZero(v[1..]) by {
        if v[0] == 0.0 && IsZero(v[1..]) {
          forall i | 0 <= i < |v| ensures v[i] == 0.0 {
            if i > 0 { assert v[i] == v[1..][i - 1]; }
          }
        }
      }
      Sq(v[0]) + rest
  }

  /** The squared norm is the dot product of a vector with itself. */
  lemma {:induction false} DotSelf(v: Vector)
    ensures Dot(v, v) == SumSquares(v)
  {
    if |v| > 0 {
      DotSelf(v[1..]);
    }
  }

  /** `VectorUtils.norm`: the square root of the sum of squares. */
  function Norm(v: Vector, sqrt: real -> real): (r: real)
    requires IsSqrt(sqrt)
    ensures 0.0 <= r && Sq(r) == SumSquares(v)
    ensures r == 0.0 <==> IsZero(v)
  {
    Root(sqrt, SumSquares(v));
    sqrt(SumSquares(v))
  }

  /** `VectorUtils.cosineSimilarity`: 0 when the product of the norms is 0,
      otherwise the dot product over that product. The score is 0 exactly when
      a vector is zero or the two are perpendicular, and has the sign of the
      dot product. */
  function Cosine(a: Vector, b: Vector, sqrt: real -> real): (r: real)
    requires IsSqrt(sqrt)
    ensures IsZero(a) || IsZero(b) ==> r == 0.0
    ensures r == 0.0 <==> IsZero(a) || IsZero(b) || Dot(a, b) == 0.0
    ensures 0.0 < r <==> !IsZero(a) && !IsZero(b) && 0.0 < Dot(a, b)
    ensures !IsZero(a) && !IsZero(b) ==> r * (Norm(a, sqrt) * Norm(b, sqrt)) == Dot(a, b)
  {
    var na, nb := Norm(a, sqrt), Norm(b, sqrt);
    var denom := na * nb;
    ProductZero(na, nb);
    if denom == 0.0 then 0.0
    else
      QuotientSign(Dot(a, b), denom);
      Dot(a, b) / denom
  }

  /** What `IsSqrt` promises at one point. */
  lemma Root(sqrt: real -> real, x: real)
    requires IsSqrt(sqrt) && 0.0 <= x
    ensures 0.0 <= sqrt(x) && Sq(sqrt(x)) == x
    ensures x == 0.0 <==> sqrt(x) == 0.0
  {
    SqZero(sqrt(x));
  }

  lemma ProductZero(a: real, b: real)
    requires 0.0 <= a && 0.0 <= b
    ensures a * b == 0.0 <==> a == 0.0 || b == 0.0
    ensures 0.0 <= a * b
  {
    if a != 0.0 && b != 0.0 { MulPos(a, b); }
  }

  lemma QuotientSign(d: real, m: real)
    requires 0.0 < m
    ensures d / m == 0.0 <==> d == 0.0
    ensures 0.0 < d / m <==> 0.0 < d
    ensures d / m * m == d
  {
    var q := d / m;
    assert q * m == d;
    if 0.0 < q { MulPos(q, m); }
    if q < 0.0 { MulPos(-q, m); assert (-q) * m == -(q * m); }
  }

  /** The test `cosineSimilarityIsOneForSameVector`, for every non-zero vector. */
  lemma CosineSelf(v: Vector, sqrt: real -> real)
    requires IsSqrt(sqrt)
    requires !IsZero(v)
    ensures Cosine(v, v, sqrt) == 1.0
  {
    DotSelf(v);
    var n := Norm(v, sqrt);
    SqPos(n);
    DivSelf(Dot(v, v), n * n);
  }

  lemma DivSelf(a: real, b: real)
    requires a == b && b != 0.0
    ensures a / b == 1.0
  {
  }

  lemma CosineSymmetric(a: Vector, b: Vector, sqrt: real -> real)
    requires IsSqrt(sqrt)
    ensures Cosine(a, b, sqrt) == Cosine(b, a, sqrt)
  {
    DotSymmetric(a, b);
    assert Norm(a, sqrt) * Norm(b, sqrt) == Norm(b, sqrt) * Norm(a, sqrt);
  }

  /** The test `cosineSimilarityIsZeroForOrthogonalVectors`. */
  lemma CosineOrthogonalExample(sqrt: real -> real)
    requires IsSqrt(sqrt)
    ensures Cosine([1.0, 0.0], [0.0, 1.0], sqrt) == 0.0
  {
    assert [1.0, 0.0][1..] == [0.0];
    assert [0.0, 1.0][1..] == [1.0];
    assert Dot([1.0, 0.0], [0.0, 1.0]) == 0.0;
  }

  /** The empty vector has norm 0, so anything scored against it gets 0. */
  lemma CosineEmpty(v: Vector, sqrt: real -> real)
    requires IsSqrt(sqrt)
    ensures Cosine([], v, sqrt) == 0.0 && Cosine(v, [], sqrt) == 0.0
  {
  }
}
