/** Cosine similarity of two vectors, `cosineSimilarity` in rag.ts, over the
    reals and with the square root supplied by the runtime. */
module Similarity {
  import opened Primitives

  /** The index-wise sum of `a[i] * b[i]`. */
  function Dot(a: seq<real>, b: seq<real>): real
    requires |a| == |b|
  {
    if |a| == 0 then 0.0 else Dot(a[..|a| - 1], b[..|b| - 1]) + a[|a| - 1] * b[|b| - 1]
  }

  predicate NonNegative(v: seq<real>) {
    forall i :: 0 <= i < |v| ==> 0.0 <= v[i]
  }

  /** A squared norm is never negative. */
  lemma {:induction false} DotSelfNonNegative(a: seq<real>)
    ensures 0.0 <= Dot(a, a)
  {
    if |a| > 0 {
      DotSelfNonNegative(a[..|a| - 1]);
      SquareStepNonNegative(Dot(a[..|a| - 1], a[..|a| - 1]), a[|a| - 1]);
    }
  }

  /** Two vectors with non-negative entries have a non-negative dot product. */
  lemma {:induction false} DotNonNegative(a: seq<real>, b: seq<real>)
    requires |a| == |b|
    requires NonNegative(a) && NonNegative(b)
    ensures 0.0 <= Dot(a, b)
  {
    if |a| > 0 {
      DotNonNegative(a[..|a| - 1], b[..|b| - 1]);
      var x, y := a[|a| - 1], b[|b| - 1];
      assert 0.0 <= x && 0.0 <= y;
      assert 0.0 <= x * y;
    }
  }

  lemma SquareStepNonNegative(d: real, x: real)
    requires 0.0 <= d
    ensures 0.0 <= d + x * x
  {
  }

  /** The guarded quotient that ends `cosineSimilarity`: 0 when either squared
      norm is 0, and otherwise the dot product over the product of the norms. */
  function Quotient(sqrt: real -> real, dot: real, norm1: real, norm2: real): real
    requires IsSquareRoot(sqrt)
    requires 0.0 <= norm1 && 0.0 <= norm2
  {
    if norm1 == 0.0 || norm2 == 0.0 then 0.0
    else
      SqrtPositive(sqrt, norm1);
      SqrtPositive(sqrt, norm2);
      dot / (sqrt(norm1) * sqrt(norm2))
  }

  /** The cosine of the angle between `a` and `b`, or 0 when either has norm 0. */
  function Cosine(sqrt: real -> real, a: seq<real>, b: seq<real>): (r: real)
    requires |a| == |b|
    requires IsSquareRoot(sqrt)
    ensures Dot(a, a) == 0.0 || Dot(b, b) == 0.0 ==> r == 0.0
  {
    DotSelfNonNegative(a);
    DotSelfNonNegative(b);
    Quotient(sqrt, Dot(a, b), Dot(a, a), Dot(b, b))
  }

  lemma QuotientTimesNorms(sqrt: real -> real, dot: real, norm1: real, norm2: real)
    requires IsSquareRoot(sqrt)
    requires 0.0 < norm1 && 0.0 < norm2
    ensures 0.0 < sqrt(norm1) * sqrt(norm2)
    ensures Quotient(sqrt, dot, norm1, norm2) * (sqrt(norm1) * sqrt(norm2)) == dot
  {
    SqrtPositive(sqrt, norm1);
    SqrtPositive(sqrt, norm2);
    var denominator := sqrt(norm1) * sqrt(norm2);
    assert Quotient(sqrt, dot, norm1, norm2) == dot / denominator;
  }

  /** With both norms non-zero, the similarity times the product of the norms
      (which is positive) is the dot product. */
  lemma CosineTimesNorms(sqrt: real -> real, a: seq<real>, b: seq<real>)
    requires |a| == |b|
    requires IsSquareRoot(sqrt)
    requires Dot(a, a) != 0.0 && Dot(b, b) != 0.0
    ensures 0.0 < sqrt(Dot(a, a)) * sqrt(Dot(b, b))
    ensures Cosine(sqrt, a, b) * (sqrt(Dot(a, a)) * sqrt(Dot(b, b))) == Dot(a, b)
  {
    DotSelfNonNegative(a);
    DotSelfNonNegative(b);
    assert Cosine(sqrt, a, b) == Quotient(sqrt, Dot(a, b), Dot(a, a), Dot(b, b));
    QuotientTimesNorms(sqrt, Dot(a, b), Dot(a, a), Dot(b, b));
  }

  /** A non-zero vector is at angle 0 from itself. */
  lemma SelfSimilarity(sqrt: real -> real, v: seq<real>)
    requires IsSquareRoot(sqrt)
    requires Dot(v, v) != 0.0
    ensures Cosine(sqrt, v, v) == 1.0
  {
    var n := Dot(v, v);
    DotSelfNonNegative(v);
    assert sqrt(n) * sqrt(n) == n;
    assert Cosine(sqrt, v, v) == Quotient(sqrt, n, n, n) == n / (sqrt(n) * sqrt(n)) == n / n == 1.0;
  }

  /** Vectors with non-negative entries have a non-negative similarity. */
  lemma CosineNonNegative(sqrt: real -> real, a: seq<real>, b: seq<real>)
    requires |a| == |b|
    requires IsSquareRoot(sqrt)
    requires NonNegative(a) && NonNegative(b)
    ensures 0.0 <= Cosine(sqrt, a, b)
  {
    var norm1, norm2 := Dot(a, a), Dot(b, b);
    if norm1 != 0.0 && norm2 != 0.0 {
      DotNonNegative(a, b);
      DotSelfNonNegative(a);
      DotSelfNonNegative(b);
      SqrtPositive(sqrt, norm1);
      SqrtPositive(sqrt, norm2);
      var denominator := sqrt(norm1) * sqrt(norm2);
      assert 0.0 < denominator;
      assert Cosine(sqrt, a, b) == Dot(a, b) / denominator;
    }
  }

  /** Extending both prefixes by one index adds that index's product. */
  lemma DotStep(a: seq<real>, b: seq<real>, i: nat)
    requires |a| == |b| && i < |a|
    ensures Dot(a[..i + 1], b[..i + 1]) == Dot(a[..i], b[..i]) + a[i] * b[i]
  {
    assert a[..i + 1][..i] == a[..i];
    assert b[..i + 1][..i] == b[..i];
  }

  /** `cosineSimilarity(vec1, vec2)`: one loop over the indices accumulating the
      dot product and both squared norms, then the zero-norm guard. */
  method CosineSimilarity(sqrt: real -> real, vec1: seq<real>, vec2: seq<real>) returns (r: real)
    requires |vec1| == |vec2|
    requires IsSquareRoot(sqrt)
    ensures r == Cosine(sqrt, vec1, vec2)
  {
    var dotProduct, norm1, norm2 := 0.0, 0.0, 0.0;
    var i := 0;
    while i < |vec1|
      invariant 0 <= i <= |vec1|
      invariant dotProduct == Dot(vec1[..i], vec2[..i])
      invariant norm1 == Dot(vec1[..i], vec1[..i])
      invariant norm2 == Dot(vec2[..i], vec2[..i])
    {
      DotStep(vec1, vec2, i);
      DotStep(vec1, vec1, i);
      DotStep(vec2, vec2, i);
      dotProduct := dotProduct + vec1[i] * vec2[i];
      norm1 := norm1 + vec1[i] * vec1[i];
      norm2 := norm2 + vec2[i] * vec2[i];
      i := i + 1;
    }
    assert vec1[..i] == vec1 && vec2[..i] == vec2;
    if norm1 == 0.0 || norm2 == 0.0 {
      return 0.0;
    }
    DotSelfNonNegative(vec1);
    DotSelfNonNegative(vec2);
    SqrtPositive(sqrt, norm1);
    SqrtPositive(sqrt, norm2);
    assert 0.0 < sqrt(norm1) * sqrt(norm2);
    r := dotProduct / (sqrt(norm1) * sqrt(norm2));
  }
}
