/** Sparse vectors and cosine similarity: `dot`, `norm` and `cosineSimilarity`.

    A vector maps terms to weights; a term that is not a key has weight 0.
    `Math.sqrt` is a parameter of the model (any function `real -> real`);
    the lemmas that need it to be a square root say so in their requires. */
module Similarity {
  import opened Sums

  type Vector = map<string, real>

  /** The contribution of one term to dot(a, b): zero unless both vectors hold it. */
  function Product(a: Vector, b: Vector, t: string): real {
    if t in a && t in b then a[t] * b[t] else 0.0
  }

  /** dot(a, b) over the reals: the sum of a[t] * b[t] over the terms both vectors hold. */
  ghost function DotValue(a: Vector, b: Vector): real {
    Sum(a.Keys * b.Keys, t => Product(a, b, t))
  }

  ghost function NormValue(v: Vector, sqrt: real -> real): real {
    sqrt(DotValue(v, v))
  }

  /** `dot(a, b) / (norm(a) * norm(b) || 1)`: a zero product of the norms falls back to 1. */
  ghost function CosineValue(a: Vector, b: Vector, sqrt: real -> real): real {
    var p := NormValue(a, sqrt) * NormValue(b, sqrt);
    DotValue(a, b) / (if p == 0.0 then 1.0 else p)
  }

  /** A function that is the square root on the non-negative reals. */
  ghost predicate IsSquareRoot(sqrt: real -> real) {
    forall x: real {:trigger sqrt(x)} :: x >= 0.0 ==> sqrt(x) >= 0.0 && sqrt(x) * sqrt(x) == x
  }

  /** `dot`: the `for...in` loop over the keys of a, adding a[t] * b[t] when b[t] is truthy
      (present and non-zero). Over the reals the result is the sum over the shared terms. */
  method Dot(a: Vector, b: Vector) returns (sum: real)
    ensures sum == DotValue(a, b)
  {
    sum := 0.0;
    var remaining := a.Keys;
    ghost var visited: set<string> := {};
    while remaining != {}
      invariant remaining + visited == a.Keys && remaining !! visited
      invariant sum == Sum(visited, t => Product(a, b, t))
      decreases remaining
    {
      var t :| t in remaining;
      if t in b && b[t] != 0.0 {
        sum := sum + a[t] * b[t];
      }
      SumInsert(visited, t => Product(a, b, t), t);
      remaining := remaining - {t};
      visited := visited + {t};
    }
    SumRestrict(a.Keys, b.Keys, t => Product(a, b, t));
  }

  /** `norm(vec) = Math.sqrt(dot(vec, vec))`. */
  method Norm(v: Vector, sqrt: real -> real) returns (r: real)
    ensures r == NormValue(v, sqrt)
  {
    var d := Dot(v, v);
    r := sqrt(d);
  }

  method CosineSimilarity(a: Vector, b: Vector, sqrt: real -> real) returns (r: real)
    ensures r == CosineValue(a, b, sqrt)
  {
    var d := Dot(a, b);
    var na := Norm(a, sqrt);
    var nb := Norm(b, sqrt);
    var p := na * nb;
    r := d / (if p == 0.0 then 1.0 else p);
  }

  /** dot is symmetric. */
  lemma DotSymmetric(a: Vector, b: Vector)
    ensures DotValue(a, b) == DotValue(b, a)
  {
    assert a.Keys * b.Keys == b.Keys * a.Keys;
    SumCongruent(a.Keys * b.Keys, t => Product(a, b, t), t => Product(b, a, t));
  }

  /** dot(v, v) is a sum of squares: never negative, and zero exactly when every weight is zero. */
  lemma DotSelf(v: Vector)
    ensures DotValue(v, v) >= 0.0
    ensures DotValue(v, v) == 0.0 <==> forall t :: t in v ==> v[t] == 0.0
  {
    var keys := v.Keys * v.Keys;
    assert keys == v.Keys;
    forall t | t in keys ensures Product(v, v, t) >= 0.0 {
      if v[t] != 0.0 {
        SquarePositive(v[t]);
      }
    }
    SumNonNegative(keys, t => Product(v, v, t));
    if forall t :: t in v ==> v[t] == 0.0 {
      SumZero(keys, t => Product(v, v, t));
    } else {
      var t :| t in v && v[t] != 0.0;
      SelfProductPositive(v, t);
      assert t in keys;
    }
  }

  lemma SquarePositive(x: real)
    requires x != 0.0
    ensures x * x > 0.0
  {
    if x > 0.0 {
      PositiveProduct(x, x);
    } else {
      PositiveProduct(-x, -x);
      assert (-x) * (-x) == x * x;
    }
  }

  lemma PositiveProduct(x: real, y: real)
    requires x > 0.0 && y > 0.0
    ensures x * y > 0.0
  {
  }

  /** A non-zero weight contributes a positive square to dot(v, v). */
  lemma SelfProductPositive(v: Vector, t: string)
    requires t in v && v[t] != 0.0
    ensures Product(v, v, t) > 0.0
  {
    var x := v[t];
    SquarePositive(x);
    calc {
      Product(v, v, t);
      == x * x;
      > 0.0;
    }
  }

  /** With a square root, norm(v) is non-negative, and it is 0 exactly when every weight
      of v is 0. */
  lemma NormZero(v: Vector, sqrt: real -> real)
    requires IsSquareRoot(sqrt)
    ensures NormValue(v, sqrt) >= 0.0
    ensures NormValue(v, sqrt) == 0.0 <==> forall t :: t in v ==> v[t] == 0.0
  {
    DotSelf(v);
    var d := DotValue(v, v);
    var r := sqrt(d);
    assert r >= 0.0 && r * r == d;
    if d == 0.0 {
      SquareZero(r);
    }
  }

  lemma SquareZero(x: real)
    requires x * x == 0.0
    ensures x == 0.0
  {
    if x != 0.0 {
      ZeroFactor(x, x);
    }
  }

  lemma ZeroFactor(x: real, y: real)
    requires x * y == 0.0 && x != 0.0
    ensures y == 0.0
  {
  }

  /** A vector whose weights are all zero (in particular the empty vector) has dot 0 with any vector. */
  lemma DotWithZeroVector(a: Vector, b: Vector)
    requires forall t :: t in a ==> a[t] == 0.0
    ensures DotValue(a, b) == 0.0
  {
    SumZero(a.Keys * b.Keys, t => Product(a, b, t));
  }

  /** cosineSimilarity is symmetric, whatever sqrt is. */
  lemma CosineSymmetric(a: Vector, b: Vector, sqrt: real -> real)
    ensures CosineValue(a, b, sqrt) == CosineValue(b, a, sqrt)
  {
    DotSymmetric(a, b);
    assert NormValue(a, sqrt) * NormValue(b, sqrt) == NormValue(b, sqrt) * NormValue(a, sqrt);
  }

  /** When the product of the norms is 0 the divisor is 1, so the result is dot(a, b)
      itself and nothing is divided by zero. */
  lemma CosineZeroNormFallback(a: Vector, b: Vector, sqrt: real -> real)
    requires IsSquareRoot(sqrt)
    requires NormValue(a, sqrt) * NormValue(b, sqrt) == 0.0
    ensures CosineValue(a, b, sqrt) == DotValue(a, b)
    ensures CosineValue(a, b, sqrt) == 0.0
  {
    DotSelf(a);
    DotSelf(b);
    var da, db := DotValue(a, a), DotValue(b, b);
    if NormValue(a, sqrt) == 0.0 {
      assert sqrt(da) * sqrt(da) == da;
      DotWithZeroVector(a, b);
    } else {
      assert NormValue(b, sqrt) == 0.0;
      assert sqrt(db) * sqrt(db) == db;
      DotWithZeroVector(b, a);
      DotSymmetric(a, b);
    }
  }

  /** If either vector has only zero weights (an empty text gives an empty vector), the
      similarity is 0 — never a division by zero — whatever sqrt is. */
  lemma CosineWithZeroVector(a: Vector, b: Vector, sqrt: real -> real)
    requires (forall t :: t in a ==> a[t] == 0.0) || (forall t :: t in b ==> b[t] == 0.0)
    ensures CosineValue(a, b, sqrt) == 0.0
  {
    if forall t :: t in a ==> a[t] == 0.0 {
      DotWithZeroVector(a, b);
    } else {
      DotWithZeroVector(b, a);
      DotSymmetric(a, b);
    }
  }

  /** A vector with some non-zero weight has similarity 1 with itself, also when its
      weights are negative (a negative idf): the signs cancel in dot(v, v). */
  lemma CosineSelf(v: Vector, sqrt: real -> real)
    requires IsSquareRoot(sqrt)
    requires exists t :: t in v && v[t] != 0.0
    ensures CosineValue(v, v, sqrt) == 1.0
  {
    DotSelf(v);
    var d := DotValue(v, v);
    assert d > 0.0;
    assert NormValue(v, sqrt) == sqrt(d);
    assert sqrt(d) * sqrt(d) == d;
    assert d / d == 1.0;
  }
}
