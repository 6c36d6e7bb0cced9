/**
 * Embedding vectors and the two static helpers of HumanDataBase
 * (nnio/utils.py): normalize, vec / sqrt(sum(vec ** 2)), and distance,
 * 1 - vec1 @ vec2.  The square root is the one operation Dafny cannot
 * compute on reals, so normalization is parameterised by `rsqrt`, which
 * stands for x |-> 1 / sqrt(x); IsRsqrt states what it must satisfy.
 */
module Vectors {
  type Vector = seq<real>

  /** vec1 @ vec2 for one-dimensional arrays of equal length. */
  function Dot(a: Vector, b: Vector): real
    requires |a| == |b|
    decreases |a|
  {
    if |a| == 0 then 0.0 else a[0] * b[0] + Dot(a[1..], b[1..])
  }

  /** vec * c */
  function Scale(v: Vector, c: real): Vector {
    seq(|v|, i requires 0 <= i < |v| => v[i] * c)
  }

  /** vec1 + vec2 */
  function Add(a: Vector, b: Vector): Vector
    requires |a| == |b|
  {
    seq(|a|, i requires 0 <= i < |a| => a[i] + b[i])
  }

  /** (vec ** 2).sum() */
  function SquaredNorm(v: Vector): real {
    Dot(v, v)
  }

  /** rsqrt(x) is the positive reciprocal square root of every positive x. */
  ghost predicate IsRsqrt(rsqrt: real -> real) {
    forall x :: 0.0 < x ==> 0.0 < rsqrt(x) && rsqrt(x) * (rsqrt(x) * x) == 1.0
  }

  /** HumanDataBase.normalize: divide by the Euclidean norm. */
  function Normalize(v: Vector, rsqrt: real -> real): Vector {
    Scale(v, rsqrt(SquaredNorm(v)))
  }

  /** HumanDataBase.distance: the cosine distance of two unit vectors. */
  function Distance(a: Vector, b: Vector): real
    requires |a| == |b|
  {
    1.0 - Dot(a, b)
  }

  lemma {:induction false} DotSymmetric(a: Vector, b: Vector)
    requires |a| == |b|
    ensures Dot(a, b) == Dot(b, a)
  {
    if |a| > 0 {
      DotSymmetric(a[1..], b[1..]);
    }
  }

  /** distance(a, b) == distance(b, a) */
  lemma DistanceSymmetric(a: Vector, b: Vector)
    requires |a| == |b|
    ensures Distance(a, b) == Distance(b, a)
  {
    DotSymmetric(a, b);
  }

  lemma ScaleTail(v: Vector, c: real)
    requires |v| > 0
    ensures Scale(v, c)[1..] == Scale(v[1..], c)
  {
    assert forall i :: 0 <= i < |v| - 1 ==> Scale(v, c)[1..][i] == Scale(v[1..], c)[i];
  }

  /** Dot(c * a, b) == c * Dot(a, b) */
  lemma {:induction false} DotScaleLeft(a: Vector, b: Vector, c: real)
    requires |a| == |b|
    ensures Dot(Scale(a, c), b) == c * Dot(a, b)
  {
    if |a| > 0 {
      ScaleTail(a, c);
      DotScaleLeft(a[1..], b[1..], c);
      var sa := Scale(a, c);
      StepLeft(sa[0], a[0], b[0], c, Dot(sa[1..], b[1..]), Dot(a[1..], b[1..]));
    }
  }

  lemma StepLeft(p: real, x: real, y: real, c: real, s: real, t: real)
    requires p == x * c && s == c * t
    ensures p * y + s == c * (x * y + t)
  {
  }

  /** Dot(a, d * b) == d * Dot(a, b) */
  lemma {:induction false} DotScaleRight(a: Vector, b: Vector, d: real)
    requires |a| == |b|
    ensures Dot(a, Scale(b, d)) == d * Dot(a, b)
  {
    if |a| > 0 {
      ScaleTail(b, d);
      DotScaleRight(a[1..], b[1..], d);
      var sb := Scale(b, d);
      StepRight(sb[0], b[0], a[0], d, Dot(a[1..], sb[1..]), Dot(a[1..], b[1..]));
    }
  }

  lemma StepRight(p: real, x: real, y: real, c: real, s: real, t: real)
    requires p == x * c && s == c * t
    ensures y * p + s == c * (y * x + t)
  {
  }

  /** The squared norm of c * v is c * (c * |v|^2). */
  lemma SquaredNormScale(v: Vector, c: real)
    ensures SquaredNorm(Scale(v, c)) == c * (c * SquaredNorm(v))
  {
    DotScaleLeft(v, Scale(v, c), c);
    DotScaleRight(v, v, c);
  }

  /** Scaling twice is scaling by the product. */
  lemma ScaleScale(v: Vector, c: real, d: real)
    ensures Scale(Scale(v, c), d) == Scale(v, c * d)
  {
    forall i | 0 <= i < |v| ensures Scale(Scale(v, c), d)[i] == Scale(v, c * d)[i] {
      MulAssoc(v[i], c, d);
    }
  }

  lemma MulAssoc(x: real, c: real, d: real)
    ensures x * c * d == x * (c * d)
  {
  }

  /** Two positive reals whose squares times the same positive n agree are equal. */
  lemma PositiveRootUnique(x: real, y: real, n: real)
    requires x > 0.0 && y > 0.0 && n > 0.0 && x * (x * n) == y * (y * n)
    ensures x == y
  {
  }

  /** If r1 is the reciprocal root of c^2 n and r2 that of n, then c r1 == r2. */
  lemma RootOfScaled(r1: real, r2: real, c: real, n: real)
    requires r1 > 0.0 && r2 > 0.0 && c > 0.0 && n > 0.0
    requires r1 * (r1 * (c * (c * n))) == 1.0 && r2 * (r2 * n) == 1.0
    ensures c * r1 == r2
  {
    assert (c * r1) * ((c * r1) * n) == 1.0;
    PositiveRootUnique(c * r1, r2, n);
  }

  lemma PositiveScaled(c: real, n: real, m: real)
    requires c > 0.0 && n > 0.0 && m == c * (c * n)
    ensures m > 0.0
  {
    var k := c * n;
    assert k > 0.0;
    assert c * k > 0.0;
  }

  /**
   * A vector with a positive squared norm is normalized to squared norm 1,
   * at distance 0 from itself, with every direction kept (a positive
   * multiple of the input).
   */
  lemma NormalizeIsUnit(v: Vector, rsqrt: real -> real)
    requires IsRsqrt(rsqrt) && SquaredNorm(v) > 0.0
    ensures |Normalize(v, rsqrt)| == |v|
    ensures SquaredNorm(Normalize(v, rsqrt)) == 1.0
    ensures Distance(Normalize(v, rsqrt), Normalize(v, rsqrt)) == 0.0
    ensures rsqrt(SquaredNorm(v)) > 0.0 && Normalize(v, rsqrt) == Scale(v, rsqrt(SquaredNorm(v)))
  {
    SquaredNormScale(v, rsqrt(SquaredNorm(v)));
  }

  /** normalize(c * v) == normalize(v) for every c > 0. */
  lemma NormalizeScaleInvariant(v: Vector, c: real, rsqrt: real -> real)
    requires IsRsqrt(rsqrt) && SquaredNorm(v) > 0.0 && c > 0.0
    ensures Normalize(Scale(v, c), rsqrt) == Normalize(v, rsqrt)
  {
    var n := SquaredNorm(v);
    var sv := Scale(v, c);
    ScaledNormPositive(v, c);
    var r1, r2 := rsqrt(SquaredNorm(sv)), rsqrt(n);
    RsqrtAt(rsqrt, SquaredNorm(sv));
    RsqrtAt(rsqrt, n);
    ScaleByRoot(v, c, r1, r2, n);
    assert Normalize(sv, rsqrt) == Scale(sv, r1);
    assert Normalize(v, rsqrt) == Scale(v, r2);
  }

  /** Scaling a non-zero vector by c > 0 keeps its squared norm positive. */
  lemma ScaledNormPositive(v: Vector, c: real)
    requires SquaredNorm(v) > 0.0 && c > 0.0
    ensures SquaredNorm(Scale(v, c)) == c * (c * SquaredNorm(v)) && SquaredNorm(Scale(v, c)) > 0.0
  {
    SquaredNormScale(v, c);
    PositiveScaled(c, SquaredNorm(v), SquaredNorm(Scale(v, c)));
  }

  /** What IsRsqrt promises at one positive point. */
  lemma RsqrtAt(rsqrt: real -> real, x: real)
    requires IsRsqrt(rsqrt) && x > 0.0
    ensures 0.0 < rsqrt(x) && rsqrt(x) * (rsqrt(x) * x) == 1.0
  {
  }

  lemma ScaleByRoot(v: Vector, c: real, r1: real, r2: real, n: real)
    requires r1 > 0.0 && r2 > 0.0 && c > 0.0 && n > 0.0
    requires r1 * (r1 * (c * (c * n))) == 1.0 && r2 * (r2 * n) == 1.0
    ensures Scale(Scale(v, c), r1) == Scale(v, r2)
  {
    RootOfScaled(r1, r2, c, n);
    ScaleScale(v, c, r1);
  }

  /** A unit vector normalizes to itself. */
  lemma NormalizeUnit(v: Vector, rsqrt: real -> real)
    requires IsRsqrt(rsqrt) && SquaredNorm(v) == 1.0
    ensures Normalize(v, rsqrt) == v
  {
    var r := rsqrt(1.0);
    assert 0.0 < r && r * (r * 1.0) == 1.0;
    PositiveRootUnique(r, 1.0, 1.0);
    assert Normalize(v, rsqrt) == Scale(v, r);
  }

  lemma AddTail(a: Vector, b: Vector)
    requires |a| == |b| && |a| > 0
    ensures Add(a, b)[1..] == Add(a[1..], b[1..])
  {
    assert forall i :: 0 <= i < |a| - 1 ==> Add(a, b)[1..][i] == Add(a[1..], b[1..])[i];
  }

  /** Dot(a + b, c) == Dot(a, c) + Dot(b, c) */
  lemma {:induction false} DotAddLeft(a: Vector, b: Vector, c: Vector)
    requires |a| == |b| == |c|
    ensures Dot(Add(a, b), c) == Dot(a, c) + Dot(b, c)
  {
    if |a| > 0 {
      AddTail(a, b);
      DotAddLeft(a[1..], b[1..], c[1..]);
    }
  }

  /** |a + b|^2 == |a|^2 + 2 a.b + |b|^2 */
  lemma SquaredNormAdd(a: Vector, b: Vector)
    requires |a| == |b|
    ensures SquaredNorm(Add(a, b)) == SquaredNorm(a) + 2.0 * Dot(a, b) + SquaredNorm(b)
  {
    var s := Add(a, b);
    DotAddLeft(a, b, s);
    DotSymmetric(a, s);
    DotSymmetric(b, s);
    DotAddLeft(a, b, a);
    DotAddLeft(a, b, b);
    DotSymmetric(a, b);
  }

  lemma SquarePlusPositive(n: real, x: real)
    requires n >= 1.0 && x > -1.0
    ensures n * (n * 1.0) + 2.0 * (n * x) + 1.0 > 0.0
  {
    assert n * (x + 1.0) > 0.0;
    assert (n - 1.0) * (n - 1.0) >= 0.0;
  }

  /**
   * normalize(c * n + v) for unit c and v, a count n >= 1 and a distance
   * below 2 (v is not the opposite of c) is again a unit vector: the sum
   * is never the zero vector.
   */
  lemma WeightedSumNormalizes(c: Vector, n: real, v: Vector, rsqrt: real -> real)
    requires IsRsqrt(rsqrt) && |c| == |v| && n >= 1.0
    requires SquaredNorm(c) == 1.0 && SquaredNorm(v) == 1.0 && Distance(v, c) < 2.0
    ensures SquaredNorm(Normalize(Add(Scale(c, n), v), rsqrt)) == 1.0
  {
    var sc := Scale(c, n);
    SquaredNormAdd(sc, v);
    SquaredNormScale(c, n);
    DotScaleLeft(c, v, n);
    DotSymmetric(c, v);
    SquarePlusPositive(n, Dot(c, v));
    NormalizeIsUnit(Add(sc, v), rsqrt);
  }

  /** normalize(a + b) for unit a and b at distance below 2 is a unit vector. */
  lemma SumNormalizes(a: Vector, b: Vector, rsqrt: real -> real)
    requires IsRsqrt(rsqrt) && |a| == |b|
    requires SquaredNorm(a) == 1.0 && SquaredNorm(b) == 1.0 && Distance(a, b) < 2.0
    ensures SquaredNorm(Normalize(Add(a, b), rsqrt)) == 1.0
  {
    SquaredNormAdd(a, b);
    NormalizeIsUnit(Add(a, b), rsqrt);
  }
}
