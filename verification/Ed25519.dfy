/**
 The verifier of src/MQTTBridge/ed25519.py: extended twisted Edwards coordinates, double-and-add, strict
 decoding and the cofactorless equation [S]B = R + [k]A of RFC 8032 section 5.1.7.
 */
module Ed25519 {
  import opened Options
  import opened PrimeField
  import opened EdwardsGroup
  import opened EdwardsScalar
  import Algebra = EdwardsAlgebra

  type byte = b: int | 0 <= b < 256

  /** (X, Y, Z, T) with x = X/Z, y = Y/Z and x y = T/Z. */
  datatype Point = Point(x: int, y: int, z: int, t: int)

  const IDENTITY := Point(0, 1, 1, 0)

  /** A point of the curve in extended coordinates. */
  predicate Valid(c: Curve, a: Point)
    requires c.p > 0
  {
    && a.z % c.p != 0
    && Same(c.p, a.x * a.y, a.z * a.t)
    && Same(c.p, c.d * (a.t * a.t), a.y * a.y - a.x * a.x - a.z * a.z)
  }

  function ToAffine(c: Curve, a: Point): (r: Affine)
    requires c.p > 2
    ensures 0 <= r.x < c.p && 0 <= r.y < c.p
  {
    Affine(a.x * Inverse(c.p, a.z) % c.p, a.y * Inverse(c.p, a.z) % c.p)
  }

  function Add(c: Curve, one: Point, two: Point): Point
    requires c.p > 0
  {
    var a := (one.y - one.x) * (two.y - two.x) % c.p;
    var b := (one.y + one.x) * (two.y + two.x) % c.p;
    var k := 2 * one.t * two.t * c.d % c.p;
    var d := 2 * one.z * two.z % c.p;
    var e, f, g, h := b - a, d - k, d + k, b + a;
    Point(e * f % c.p, g * h % c.p, f * g % c.p, e * h % c.p)
  }

  predicate Equal(c: Curve, one: Point, two: Point)
    requires c.p > 0
  {
    if (one.x * two.z - two.x * one.z) % c.p != 0 then false
    else (one.y * two.z - two.y * one.z) % c.p == 0
  }

  // ---------------------------------------------------------------- what a point stands for

  /** `a` stands for the affine point `r`, stated without a division. */
  predicate Represents(c: Curve, a: Point, r: Affine)
    requires c.p > 0
  {
    && a.z % c.p != 0
    && Same(c.p, a.x, r.x * a.z) && Same(c.p, a.y, r.y * a.z) && Same(c.p, a.t, (r.x * r.y) * a.z)
  }

  lemma {:induction false} RepresentsUnique(c: Curve, a: Point, r: Affine)
    requires Prime(c.p) && c.p > 2 && a.z % c.p != 0
    requires Same(c.p, a.x, r.x * a.z) && Same(c.p, a.y, r.y * a.z)
    requires 0 <= r.x < c.p && 0 <= r.y < c.p
    ensures r == ToAffine(c, a)
  {
    var m, s := c.p, ToAffine(c, a);
    DivideIs(m, a.x, a.z); DivideIs(m, a.y, a.z);
    SameSym(m, a.x, r.x * a.z); SameSym(m, a.y, r.y * a.z);
    CancelTo(m, r.x, s.x, a.z, a.x);
    CancelTo(m, r.y, s.y, a.z, a.y);
    SameCanonical(m, r.x, s.x);
    SameCanonical(m, r.y, s.y);
  }

  /** A valid point stands for a point of the curve. */
  lemma {:induction false} ValidMeans(c: Curve, a: Point)
    requires Prime(c.p) && c.p > 2 && Valid(c, a)
    ensures Represents(c, a, ToAffine(c, a)) && OnCurve(c, ToAffine(c, a))
  {
    var m, r, z := c.p, ToAffine(c, a), a.z;
    DivideIs(m, a.x, z); DivideIs(m, a.y, z);
    SameSym(m, r.x * z, a.x); SameSym(m, r.y * z, a.y);
    // z t = x y = (r.x r.y) z z
    SameMul(m, a.x, r.x * z, a.y, r.y * z);
    Algebra.Exchange(r.x, z, r.y, z);
    SameSym(m, a.x * a.y, z * a.t);
    SameTrans(m, z * a.t, a.x * a.y, (r.x * r.y) * (z * z));
    Algebra.Rotate(r.x * r.y, z, z);
    assert z * a.t == a.t * z;
    SameCancel(m, a.t, (r.x * r.y) * z, z);
    CurveFromExtended(c, a, r);
  }

  /** A valid point stands for exactly one affine point, and that one is on the curve. */
  lemma {:induction false} ValidMeansOne(c: Curve, a: Point, r: Affine)
    requires Prime(c.p) && c.p > 2 && Valid(c, a)
    ensures OnCurve(c, ToAffine(c, a))
    ensures Represents(c, a, r) && 0 <= r.x < c.p && 0 <= r.y < c.p <==> r == ToAffine(c, a)
  {
    ValidMeans(c, a);
    if Represents(c, a, r) && 0 <= r.x < c.p && 0 <= r.y < c.p { RepresentsUnique(c, a, r); }
  }

  lemma {:induction false} CurveFromExtended(c: Curve, a: Point, r: Affine)
    requires Prime(c.p) && Valid(c, a) && Represents(c, a, r)
    ensures CurveEquation(c, r.x, r.y)
  {
    var m, d, z, t := c.p, c.d, a.z, r.x * r.y;
    var w := z * z;
    ProductNonZero(m, z, z);
    SameMul(m, a.t, t * z, a.t, t * z);
    Algebra.Exchange(t, z, t, z);
    SameScale(m, d, a.t * a.t, (t * t) * w);
    SameMul(m, a.x, r.x * z, a.x, r.x * z); Algebra.Exchange(r.x, z, r.x, z);
    SameMul(m, a.y, r.y * z, a.y, r.y * z); Algebra.Exchange(r.y, z, r.y, z);
    SameSub(m, a.y * a.y, (r.y * r.y) * w, a.x * a.x, (r.x * r.x) * w);
    SameRefl(m, w);
    SameSub(m, a.y * a.y - a.x * a.x, (r.y * r.y) * w - (r.x * r.x) * w, w, w);
    SameSym(m, d * (a.t * a.t), d * ((t * t) * w));
    SameTrans(m, d * ((t * t) * w), d * (a.t * a.t), a.y * a.y - a.x * a.x - w);
    SameTrans(m, d * ((t * t) * w), a.y * a.y - a.x * a.x - w, (r.y * r.y) * w - (r.x * r.x) * w - w);
    Algebra.Rotate(d, t * t, w);
    Algebra.Split(r.y * r.y, r.x * r.x, w);
    assert (r.y * r.y - r.x * r.x) * w - w == (r.y * r.y - r.x * r.x - 1) * w;
    SameCancel(m, d * (t * t), r.y * r.y - r.x * r.x - 1, w);
  }

  lemma {:induction false} ExtendedFromCurve(c: Curve, a: Point, r: Affine)
    requires Prime(c.p) && Represents(c, a, r) && CurveEquation(c, r.x, r.y)
    ensures Valid(c, a)
  {
    var m, d, z, t := c.p, c.d, a.z, r.x * r.y;
    var w := z * z;
    SameMul(m, a.x, r.x * z, a.y, r.y * z);
    Algebra.Exchange(r.x, z, r.y, z);
    SameScale(m, z, a.t, t * z);
    Algebra.Rotate(t, z, z);
    SameSym(m, z * a.t, t * w);
    SameTrans(m, a.x * a.y, t * w, z * a.t);
    SameMul(m, a.t, t * z, a.t, t * z);
    Algebra.Exchange(t, z, t, z);
    SameScale(m, d, a.t * a.t, (t * t) * w);
    Algebra.Rotate(d, t * t, w);
    SameRefl(m, w);
    SameMul(m, d * (t * t), r.y * r.y - r.x * r.x - 1, w, w);
    SameTrans(m, d * (a.t * a.t), (d * (t * t)) * w, (r.y * r.y - r.x * r.x - 1) * w);
    SameMul(m, a.x, r.x * z, a.x, r.x * z); Algebra.Exchange(r.x, z, r.x, z);
    SameMul(m, a.y, r.y * z, a.y, r.y * z); Algebra.Exchange(r.y, z, r.y, z);
    SameSub(m, a.y * a.y, (r.y * r.y) * w, a.x * a.x, (r.x * r.x) * w);
    SameSub(m, a.y * a.y - a.x * a.x, (r.y * r.y) * w - (r.x * r.x) * w, w, w);
    Algebra.Split(r.y * r.y, r.x * r.x, w);
    assert (r.y * r.y - r.x * r.x) * w - w == (r.y * r.y - r.x * r.x - 1) * w;
    SameSym(m, a.y * a.y - a.x * a.x - w, (r.y * r.y - r.x * r.x - 1) * w);
    SameTrans(m, d * (a.t * a.t), (r.y * r.y - r.x * r.x - 1) * w, a.y * a.y - a.x * a.x - w);
  }

  // ---------------------------------------------------------------- addition

  lemma {:induction false} ScaledProduct(m: int, a: int, g: int, z: int, b: int, h: int, w: int)
    requires m > 0 && Same(m, a, g * z) && Same(m, b, h * w)
    ensures Same(m, a * b % m, (z * w) * (g * h))
  {
    SameMul(m, a, g * z, b, h * w);
    Algebra.Exchange(g, z, h, w);
    assert (g * h) * (z * w) == (z * w) * (g * h);
    SameMod(m, a * b);
    SameTrans(m, a * b % m, a * b, (z * w) * (g * h));
  }

  /** The four products of the unified formula, each as a multiple of Z1 Z2. */
  lemma {:induction false} AddProducts(c: Curve, one: Point, two: Point, r: Affine, s: Affine)
    requires c.p > 0 && Represents(c, one, r) && Represents(c, two, s)
    ensures var w, e := one.z * two.z, Cross(c, r, s);
      && Same(c.p, (one.y - one.x) * (two.y - two.x) % c.p, w * ((r.y - r.x) * (s.y - s.x)))
      && Same(c.p, (one.y + one.x) * (two.y + two.x) % c.p, w * ((r.y + r.x) * (s.y + s.x)))
      && Same(c.p, 2 * one.t * two.t * c.d % c.p, w * (2 * e))
      && Same(c.p, 2 * one.z * two.z % c.p, w * 2)
  {
    var m, t, u := c.p, r.x * r.y, s.x * s.y;
    SumAndDifference(m, one, r); SumAndDifference(m, two, s);
    ScaledProduct(m, one.y - one.x, r.y - r.x, one.z, two.y - two.x, s.y - s.x, two.z);
    ScaledProduct(m, one.y + one.x, r.y + r.x, one.z, two.y + two.x, s.y + s.x, two.z);
    ScaledCross(m, c.d, one.t, t, one.z, two.t, u, two.z);
    ScaledTwice(m, one.z, two.z);
  }

  lemma {:induction false} SumAndDifference(m: int, one: Point, r: Affine)
    requires m > 0 && Same(m, one.x, r.x * one.z) && Same(m, one.y, r.y * one.z)
    ensures Same(m, one.y - one.x, (r.y - r.x) * one.z) && Same(m, one.y + one.x, (r.y + r.x) * one.z)
  {
    SameSub(m, one.y, r.y * one.z, one.x, r.x * one.z);
    SameAdd(m, one.y, r.y * one.z, one.x, r.x * one.z);
    Algebra.Split(r.y, r.x, one.z);
  }

  lemma {:induction false} ScaledCross(m: int, d: int, a: int, t: int, z: int, b: int, u: int, w: int)
    requires m > 0 && Same(m, a, t * z) && Same(m, b, u * w)
    ensures Same(m, 2 * a * b * d % m, (z * w) * (2 * (d * (t * u))))
  {
    SameScale(m, 2, a, t * z);
    Algebra.Rotate(2, t, z);
    SameRefl(m, d);
    SameMul(m, b, u * w, d, d);
    Algebra.Rotate(u, w, d);
    ScaledProduct(m, 2 * a, 2 * t, z, b * d, u * d, w);
    Algebra.Rotate(2 * a, b, d);
    CrossTwice(d, t, u);
  }

  lemma {:induction false} ScaledTwice(m: int, z: int, w: int)
    requires m > 0
    ensures Same(m, 2 * z * w % m, (z * w) * 2)
  {
    Algebra.Rotate(2, z, w);
    SameMod(m, 2 * z * w);
  }

  lemma {:induction false} CrossTwice(d: int, t: int, u: int)
    ensures (2 * t) * (u * d) == 2 * (d * (t * u))
  {
    Algebra.Rotate(t, u, d);
    Algebra.Rotate(2, t, u * d);
    assert (t * u) * d == d * (t * u);
  }

  lemma {:induction false} DoubledTerms(w: int, y1: int, x1: int, y2: int, x2: int, e: int)
    ensures w * ((y1 + x1) * (y2 + x2)) - w * ((y1 - x1) * (y2 - x2)) == (2 * w) * (x1 * y2 + x2 * y1)
    ensures w * ((y1 + x1) * (y2 + x2)) + w * ((y1 - x1) * (y2 - x2)) == (2 * w) * (y1 * y2 + x1 * x2)
    ensures w * 2 - w * (2 * e) == (2 * w) * (1 - e) && w * 2 + w * (2 * e) == (2 * w) * (1 + e)
  {
    var n1, n2 := x1 * y2 + x2 * y1, y1 * y2 + x1 * x2;
    Algebra.Binomials(y1, x1, y2, x2);
    Algebra.Binomials(y1, -x1, y2, -x2);
    assert -x1 * -x2 == x1 * x2 && y1 * -x2 == -(x2 * y1) && -x1 * y2 == -(x1 * y2) && y1 * x2 == x2 * y1;
    var a, b := (y1 + x1) * (y2 + x2), (y1 - x1) * (y2 - x2);
    assert a == n2 + n1 && b == n2 - n1;
    Algebra.Split(n2, n1, w);
    Algebra.Rotate(2, w, n1); Algebra.Rotate(2, w, n2);
    Algebra.Split(2, 2 * e, w);
    Algebra.Rotate(2, w, 1 - e); Algebra.Rotate(2, w, 1 + e); Algebra.Rotate(2, w, e);
    Algebra.Split(1, e, w);
  }

  lemma {:induction false} ScaledDifference(m: int, b: int, b': int, a: int, a': int)
    requires m > 0 && Same(m, b, b') && Same(m, a, a')
    ensures Same(m, b - a, b' - a') && Same(m, b + a, b' + a')
  {
    SameSub(m, b, b', a, a');
    SameAdd(m, b, b', a, a');
  }

  /** One coordinate of the sum against its Z. */
  lemma {:induction false} Coordinate(m: int, v: int, x: int, z: int, g: int, h: int, k: int, s: int)
    requires m > 0 && Same(m, x, v * (g * h)) && Same(m, z, v * (h * k)) && Same(m, s * k, g)
    ensures Same(m, x, s * z)
  {
    SameScale(m, s, z, v * (h * k));
    SameRefl(m, v * h);
    SameMul(m, s * k, g, v * h, v * h);
    assert s * (v * (h * k)) == (s * k) * (v * h) by { Algebra.Rotate(v, h, k); Algebra.Rotate(s, v * h, k); }
    assert g * (v * h) == v * (g * h) by { Algebra.Rotate(v, g, h); }
    SameTrans(m, s * z, (s * k) * (v * h), v * (g * h));
    SameSym(m, s * z, v * (g * h));
    SameTrans(m, x, v * (g * h), s * z);
  }

  /** The coordinates of the sum: products of the affine numerators and denominators, times (2 Z1 Z2)^2. */
  lemma {:induction false} AddScaled(c: Curve, one: Point, two: Point, r: Affine, s: Affine)
    requires c.p > 0 && Represents(c, one, r) && Represents(c, two, s)
    ensures var e, w, sum := Cross(c, r, s), 2 * (one.z * two.z), Add(c, one, two);
      var n1, n2 := r.x * s.y + s.x * r.y, r.y * s.y + r.x * s.x;
      && Same(c.p, sum.x, (w * w) * (n1 * (1 - e))) && Same(c.p, sum.y, (w * w) * ((1 + e) * n2))
      && Same(c.p, sum.z, (w * w) * ((1 - e) * (1 + e))) && Same(c.p, sum.t, (w * w) * (n1 * n2))
  {
    var m, z, e := c.p, one.z * two.z, Cross(c, r, s);
    var n1, n2, w := r.x * s.y + s.x * r.y, r.y * s.y + r.x * s.x, 2 * (one.z * two.z);
    AddProducts(c, one, two, r, s);
    DoubledTerms(z, r.y, r.x, s.y, s.x, e);
    var a, b := (one.y - one.x) * (two.y - two.x) % m, (one.y + one.x) * (two.y + two.x) % m;
    var k, d := 2 * one.t * two.t * c.d % m, 2 * one.z * two.z % m;
    ScaledDifference(m, b, z * ((r.y + r.x) * (s.y + s.x)), a, z * ((r.y - r.x) * (s.y - s.x)));
    ScaledDifference(m, d, z * 2, k, z * (2 * e));
    Commuted(w, n1, n2, 1 - e, 1 + e);
    ScaledProduct(m, b - a, n1, w, d - k, 1 - e, w);
    ScaledProduct(m, d + k, 1 + e, w, b + a, n2, w);
    ScaledProduct(m, d - k, 1 - e, w, d + k, 1 + e, w);
    ScaledProduct(m, b - a, n1, w, b + a, n2, w);
  }

  /** The unified formula computes the sum of the affine points, doubling included. */
  lemma {:induction false} AddRepresents(c: Curve, one: Point, two: Point, r: Affine, s: Affine)
    requires Complete(c) && Represents(c, one, r) && Represents(c, two, s)
    requires CurveEquation(c, r.x, r.y) && CurveEquation(c, s.x, s.y)
    ensures Represents(c, Add(c, one, two), Sum(c, r, s))
  {
    var m, e, q, sum := c.p, Cross(c, r, s), Sum(c, r, s), Add(c, one, two);
    var n1, n2, f, g := r.x * s.y + s.x * r.y, r.y * s.y + r.x * s.x, 1 - e, 1 + e;
    var w := 2 * (one.z * two.z);
    AddScaled(c, one, two, r, s);
    DenominatorsNonZero(c, r, s);
    ZNonZero(m, one.z, two.z, f, g, sum.z);
    SumIs(c, r, s);
    Algebra.Rotate(1, f, g); Algebra.Rotate(1, g, n2);
    SameMul(m, q.x * g, n1, q.y * f, n2);
    Algebra.Exchange(q.x, g, q.y, f);
    Coordinates(m, w * w, sum, n1, n2, f, g, q);
  }

  lemma {:induction false} Coordinates(m: int, v: int, sum: Point, n1: int, n2: int, f: int, g: int, q: Affine)
    requires m > 0 && Same(m, q.x * g, n1) && Same(m, q.y * f, n2) && Same(m, (q.x * q.y) * (g * f), n1 * n2)
    requires Same(m, sum.x, v * (n1 * f)) && Same(m, sum.y, v * (g * n2))
    requires Same(m, sum.z, v * (f * g)) && Same(m, sum.t, v * (n1 * n2))
    ensures Same(m, sum.x, q.x * sum.z) && Same(m, sum.y, q.y * sum.z) && Same(m, sum.t, (q.x * q.y) * sum.z)
  {
    assert g * n2 == n2 * g && f * g == g * f;
    Coordinate(m, v, sum.x, sum.z, n1, f, g, q.x);
    Coordinate(m, v, sum.y, sum.z, n2, g, f, q.y);
    assert n1 * n2 == (n1 * n2) * 1 && f * g == 1 * (g * f);
    Coordinate(m, v, sum.t, sum.z, n1 * n2, 1, g * f, q.x * q.y);
  }

  lemma {:induction false} Commuted(w: int, n1: int, n2: int, f: int, g: int)
    ensures w * n1 == n1 * w && w * n2 == n2 * w && w * f == f * w && w * g == g * w
  {
  }

  lemma {:induction false} ZNonZero(m: int, z: int, w: int, f: int, g: int, r: int)
    requires Prime(m) && m > 2 && z % m != 0 && w % m != 0 && f % m != 0 && g % m != 0
    requires Same(m, r, ((2 * (z * w)) * (2 * (z * w))) * (f * g))
    ensures r % m != 0
  {
    var u := 2 * (z * w);
    SmallMod(m, 2);
    ProductNonZero(m, z, w);
    ProductNonZero(m, 2, z * w);
    ProductNonZero(m, u, u);
    ProductNonZero(m, f, g);
    ProductNonZero(m, u * u, f * g);
    SameVanishes(m, r, (u * u) * (f * g));
  }

  /** Addition is closed and complete on valid points, and it is the affine sum. */
  lemma {:induction false} AddCorrect(c: Curve, one: Point, two: Point)
    requires Complete(c) && Valid(c, one) && Valid(c, two)
    ensures Valid(c, Add(c, one, two))
    ensures ToAffine(c, Add(c, one, two)) == Sum(c, ToAffine(c, one), ToAffine(c, two))
  {
    var r, s := ToAffine(c, one), ToAffine(c, two);
    ValidMeans(c, one);
    ValidMeans(c, two);
    AddRepresents(c, one, two, r, s);
    SumOnCurve(c, r, s);
    ExtendedFromCurve(c, Add(c, one, two), Sum(c, r, s));
    RepresentsUnique(c, Add(c, one, two), Sum(c, r, s));
  }

  /** Comparing both coordinates projectively is comparing the points. */
  lemma {:induction false} EqualCorrect(c: Curve, one: Point, two: Point)
    requires Complete(c) && Valid(c, one) && Valid(c, two)
    ensures Equal(c, one, two) <==> ToAffine(c, one) == ToAffine(c, two)
  {
    var m, r, s := c.p, ToAffine(c, one), ToAffine(c, two);
    ValidMeans(c, one);
    ValidMeans(c, two);
    CrossCompare(m, one.x, one.z, r.x, two.x, two.z, s.x);
    CrossCompare(m, one.y, one.z, r.y, two.y, two.z, s.y);
  }

  lemma {:induction false} CrossCompare(m: int, a: int, z: int, r: int, b: int, w: int, s: int)
    requires Prime(m) && z % m != 0 && w % m != 0
    requires Same(m, a, r * z) && Same(m, b, s * w) && 0 <= r < m && 0 <= s < m
    ensures (a * w - b * z) % m == 0 <==> r == s
  {
    ProductNonZero(m, z, w);
    SameRefl(m, w); SameRefl(m, z);
    SameMul(m, a, r * z, w, w);
    SameMul(m, b, s * w, z, z);
    Algebra.Rotate(r, z, w); Algebra.Rotate(s, w, z);
    assert w * z == z * w;
    SameSub(m, a * w, r * (z * w), b * z, s * (z * w));
    SameVanishes(m, a * w - b * z, r * (z * w) - s * (z * w));
    if (a * w - b * z) % m == 0 {
      SameCancel(m, r, s, z * w);
      SameCanonical(m, r, s);
    }
    if r == s { SameRefl(m, r * (z * w)); }
  }

  // ---------------------------------------------------------------- scalar multiplication

  lemma {:induction false} IdentityValid(c: Curve)
    requires Complete(c)
    ensures Valid(c, IDENTITY) && ToAffine(c, IDENTITY) == NEUTRAL
  {
    SameRefl(c.p, 0); SameRefl(c.p, 1);
    SmallMod(c.p, 1);
    assert c.d * (0 * 0) == 0;
    RepresentsUnique(c, IDENTITY, NEUTRAL);
  }

  /** Double-and-add: the result is the `scalar`-fold of the point. */
  method Multiply(c: Curve, scalar: nat, point: Point) returns (result: Point)
    requires Complete(c) && Valid(c, point)
    ensures Valid(c, result)
    ensures ToAffine(c, result) == Multiple(c, scalar, ToAffine(c, point))
  {
    result := IDENTITY;
    var rest, power := scalar, point;
    ghost var a := ToAffine(c, point);
    IdentityValid(c);
    ValidMeans(c, point);
    MultipleOnCurve(c, scalar, a);
    SumNeutral(c, Multiple(c, scalar, a));
    while rest > 0
      invariant Valid(c, result) && Valid(c, power)
      invariant Multiple(c, scalar, a) == Sum(c, ToAffine(c, result), Multiple(c, rest, ToAffine(c, power)))
    {
      ghost var r, q := ToAffine(c, result), ToAffine(c, power);
      ValidMeans(c, result);
      ValidMeans(c, power);
      HalvingStep(c, rest, r, q);
      if rest % 2 == 1 {
        AddCorrect(c, result, power);
        result := Add(c, result, power);
      }
      AddCorrect(c, power, power);
      power := Add(c, power, power);
      rest := rest / 2;
    }
    ValidMeans(c, result);
    SumNeutral(c, ToAffine(c, result));
  }

  /** One turn of double-and-add keeps `r + n q`. */
  lemma {:induction false} HalvingStep(c: Curve, n: nat, r: Affine, q: Affine)
    requires Complete(c) && OnCurve(c, r) && OnCurve(c, q) && n > 0
    ensures Sum(c, r, Multiple(c, n, q))
         == Sum(c, if n % 2 == 1 then Sum(c, r, q) else r, Multiple(c, n / 2, Sum(c, q, q)))
  {
    var h, b := n / 2, n % 2;
    MultipleOne(c, q);
    assert Multiple(c, 2, q) == Sum(c, Multiple(c, 1, q), q);
    MultipleOfMultiple(c, h, 2, q);
    assert h * 2 + b == n;
    if b == 1 {
      MultipleAdd(c, 1, h * 2, q);
      MultipleOnCurve(c, h * 2, q);
      Associative(c, r, q, Multiple(c, h * 2, q));
    }
  }

  // ---------------------------------------------------------------- the x of a point

  /** The quotient (y^2 - 1) / (D y^2 + 1), which the square of x has to be. */
  function XSquared(c: Curve, y: int): (r: int)
    requires c.p > 2
    ensures 0 <= r < c.p
  {
    (y * y - 1) * PowMod(c.d * y * y + 1, c.p - 2, c.p) % c.p
  }

  /** The x with this y and this sign, or None: a candidate root and its correction by sqrt(-1). */
  function RecoverX(c: Curve, y: int, sign: int): Option<int>
    requires c.p > 2
  {
    if y >= c.p then None
    else
      var x2 := XSquared(c, y);
      if x2 == 0 then (if sign != 0 then None else Some(0))
      else
        var r := PowMod(x2, (c.p + 3) / 8, c.p);
        var x := if (r * r - x2) % c.p != 0 then r * c.i % c.p else r;
        if (x * x - x2) % c.p != 0 then None
        else if x % 2 != sign then Some(c.p - x)
        else Some(x)
  }

  /** A canonical x for this y and sign. */
  predicate IsX(c: Curve, y: int, sign: int, x: int)
    requires c.p > 0
  {
    OnCurve(c, Affine(x, y)) && x % 2 == sign
  }

  /** `D y^2 + 1` never vanishes, because D is no square and -1 is one. */
  lemma {:induction false} RecoverDenominator(c: Curve, y: int)
    requires Complete(c)
    ensures (c.d * y * y + 1) % c.p != 0
  {
    var m, d := c.p, c.d;
    Algebra.Rotate(d, y, y);
    if (d * y * y + 1) % m == 0 {
      assert Same(m, d * (y * y), -1);
      SameSym(m, d * (y * y), -1);
      SameTrans(m, c.i * c.i, -1, d * (y * y));
      MinusOneNonZero(m);
      if y % m == 0 {
        var k := Quotient(m, y);
        Algebra.Rotate(k, m, y);
        Algebra.Rotate(d, k * y, m);
        MultipleVanishes(m, d * (k * y));
        SameVanishes(m, d * (y * y), -1);
      } else {
        SquareQuotient(m, d, c.i, y);
      }
    }
  }

  /** With `x2` the quotient, the curve equation is `x^2 = x2`. */
  lemma {:induction false} CurveMeansRoot(c: Curve, y: int, x: int)
    requires Complete(c)
    ensures CurveEquation(c, x, y) <==> Same(c.p, x * x, XSquared(c, y))
  {
    var m, d, v := c.p, c.d, c.d * y * y + 1;
    var x2, t, n := XSquared(c, y), x * y, y * y - 1;
    RecoverDenominator(c, y);
    DivideIs(m, n, v);
    Algebra.Exchange(x, y, x, y);
    Algebra.Rotate(d, x * x, y * y); Algebra.Rotate(d, y, y);
    assert (x * x) * v == d * (t * t) + x * x;
    if Same(m, d * (t * t), y * y - x * x - 1) {
      SameRefl(m, x * x);
      SameAdd(m, d * (t * t), y * y - x * x - 1, x * x, x * x);
      CancelTo(m, x * x, x2, v, n);
    }
    if Same(m, x * x, x2) {
      SameRefl(m, v);
      SameMul(m, x * x, x2, v, v);
      SameTrans(m, (x * x) * v, x2 * v, n);
      SameRefl(m, x * x);
      SameSub(m, (x * x) * v, n, x * x, x * x);
    }
  }

  lemma {:induction false} CandidateSquare(m: int, v: int, w: int)
    requires m > 0 && m % 8 == 5 && Same(m, w * w, v)
    ensures var r := PowMod(v, (m + 3) / 8, m); Same(m, r * r, Pow(w, (m - 1) / 2) * (w * w))
  {
    var e, h := (m + 3) / 8, (m - 1) / 2;
    var r := PowMod(v, e, m);
    // r^2 = (w^2)^(2e) = w^h w^2
    SameMod(m, Pow(v, e));
    SameSym(m, w * w, v);
    SamePow(m, v, w * w, e);
    SameTrans(m, r, Pow(v, e), Pow(w * w, e));
    PowSquare(w, e);
    SameMul(m, r, Pow(w, 2 * e), r, Pow(w, 2 * e));
    PowAdd(w, 2 * e, 2 * e);
    assert 4 * e == h + 2;
    PowAdd(w, h, 2);
    assert Pow(w, 2) == w * (w * Pow(w, 0));
  }

  /** The candidate root: when `v = w^2` is not zero, its square is `v` or `-v`. */
  lemma {:induction false} CandidateRoot(m: int, v: int, w: int)
    requires Prime(m) && m % 8 == 5 && v % m != 0 && Same(m, w * w, v)
    ensures var r := PowMod(v, (m + 3) / 8, m); Same(m, r * r, v) || Same(m, r * r, -v)
  {
    var h, r := (m - 1) / 2, PowMod(v, (m + 3) / 8, m);
    var g := Pow(w, h);
    SameVanishes(m, w * w, v);
    RootOfNonZero(m, w);
    CandidateSquare(m, v, w);
    // g^2 = w^(m-1) = 1
    PowAdd(w, h, h);
    Fermat(m, w);
    UnitRoot(m, g);
    SameScale(m, g, w * w, v);
    SameTrans(m, r * r, g * (w * w), g * v);
    SameRefl(m, v);
    if Same(m, g, 1) {
      SameMul(m, g, 1, v, v);
      SameTrans(m, r * r, g * v, 1 * v);
    } else {
      SameMul(m, g, -1, v, v);
      SameTrans(m, r * r, g * v, -1 * v);
    }
  }

  lemma {:induction false} RootOfNonZero(m: int, w: int)
    requires Prime(m) && (w * w) % m != 0
    ensures w % m != 0
  {
    if w % m == 0 {
      var k := Quotient(m, w);
      Algebra.Rotate(w, k, m);
      MultipleVanishes(m, w * k);
    }
  }

  lemma {:induction false} UnitRoot(m: int, g: int)
    requires Prime(m) && Same(m, g * g, 1)
    ensures Same(m, g, 1) || Same(m, g, -1)
  {
    assert (g - 1) * (g + 1) == g * g - 1;
    Euclid(m, g - 1, g + 1);
  }

  lemma {:induction false} DifferenceOfSquares(x: int, w: int)
    ensures (x - w) * (x + w) == x * x - w * w
  {
  }

  lemma {:induction false} OppositeSum(m: int, s: int)
    requires m > 0 && s % m == 0 && 0 <= s < 2 * m
    ensures s == 0 || s == m
  {
    var k := Quotient(m, s);
    MultipleBounds(m, k);
    MultipleBounds(m, k - 2);
  }

  /** Two roots of one value differ in sign only. */
  lemma {:induction false} RootsAreOpposite(m: int, x: int, w: int, v: int)
    requires Prime(m) && Same(m, x * x, v) && Same(m, w * w, v) && 0 <= x < m && 0 <= w < m
    ensures x == w || x + w == m
  {
    SameSym(m, w * w, v);
    SameTrans(m, x * x, v, w * w);
    DifferenceOfSquares(x, w);
    Euclid(m, x - w, x + w);
    if (x - w) % m == 0 {
      SameCanonical(m, x, w);
    } else {
      OppositeSum(m, x + w);
    }
  }

  /** At most one x has a given y and sign. */
  lemma {:induction false} XUnique(c: Curve, y: int, sign: int, x: int, w: int)
    requires Complete(c) && IsX(c, y, sign, x) && IsX(c, y, sign, w)
    ensures x == w
  {
    CurveMeansRoot(c, y, x);
    CurveMeansRoot(c, y, w);
    SameSign(c.p, x, w, XSquared(c, y));
  }

  lemma {:induction false} SameSign(m: int, x: int, w: int, v: int)
    requires Prime(m) && m % 8 == 5 && Same(m, x * x, v) && Same(m, w * w, v)
    requires 0 <= x < m && 0 <= w < m && x % 2 == w % 2
    ensures x == w
  {
    RootsAreOpposite(m, x, w, v);
    ParityDecides(m, x, w);
  }

  lemma {:induction false} ParityDecides(m: int, x: int, w: int)
    requires m % 8 == 5 && x % 2 == w % 2
    ensures x + w != m
  {
  }

  lemma {:induction false} TurnedRoot(c: Curve, r: int, v: int)
    requires Complete(c) && Same(c.p, r * r, -v)
    ensures var x := r * c.i % c.p; Same(c.p, x * x, v)
  {
    var m, x := c.p, r * c.i % c.p;
    SameMod(m, r * c.i);
    SameMul(m, x, r * c.i, x, r * c.i);
    Algebra.Exchange(r, c.i, r, c.i);
    SameMul(m, r * r, -v, c.i * c.i, -1);
    assert -v * -1 == v;
    SameTrans(m, x * x, (r * r) * (c.i * c.i), v);
  }

  lemma {:induction false} OppositeRoot(m: int, x: int, v: int)
    requires m > 0 && Same(m, x * x, v)
    ensures Same(m, (m - x) * (m - x), v)
  {
    assert (m - x) * (m - x) - x * x == (m - 2 * x) * m;
    SameFrom(m, (m - x) * (m - x), x * x, m - 2 * x);
    SameTrans(m, (m - x) * (m - x), x * x, v);
  }

  lemma {:induction false} ZeroRoot(m: int, x: int)
    requires Prime(m) && Same(m, x * x, 0) && 0 <= x < m
    ensures x == 0
  {
    Euclid(m, x, x);
    SmallMod(m, x);
  }

  /** The x recovered is a canonical one with that sign, and None means that there is none. */
  lemma {:induction false} RecoverXCorrect(c: Curve, y: int, sign: int)
    requires Complete(c) && y >= 0 && (sign == 0 || sign == 1)
    ensures RecoverX(c, y, sign).Some? ==> IsX(c, y, sign, RecoverX(c, y, sign).value)
    ensures RecoverX(c, y, sign).None? ==> forall x :: !IsX(c, y, sign, x)
  {
    var m := c.p;
    if y < m {
      if XSquared(c, y) == 0 {
        CurveMeansRoot(c, y, 0);
        SameRefl(m, 0);
        forall x | IsX(c, y, sign, x) ensures x == 0 {
          CurveMeansRoot(c, y, x);
          ZeroRoot(m, x);
        }
      } else {
        RecoverSome(c, y, sign);
        RecoverNone(c, y, sign);
      }
    }
  }

  lemma {:induction false} RootNotZero(m: int, x: int, v: int)
    requires m > 0 && Same(m, x * x, v) && 0 < v < m
    ensures x != 0
  {
    SmallMod(m, v);
    SmallMod(m, 0);
    SameVanishes(m, x * x, v);
  }

  lemma {:induction false} SignedRoot(c: Curve, y: int, sign: int, x: int)
    requires Complete(c) && 0 <= y < c.p && (sign == 0 || sign == 1) && XSquared(c, y) != 0
    requires 0 <= x < c.p && Same(c.p, x * x, XSquared(c, y))
    ensures IsX(c, y, sign, if x % 2 != sign then c.p - x else x)
  {
    var m, x2 := c.p, XSquared(c, y);
    RootNotZero(m, x, x2);
    OppositeRoot(m, x, x2);
    CurveMeansRoot(c, y, x);
    CurveMeansRoot(c, y, m - x);
    OppositeParity(m, x);
  }

  lemma {:induction false} OppositeParity(m: int, x: int)
    requires m % 8 == 5
    ensures (m - x) % 2 != x % 2
  {
  }

  lemma {:induction false} RecoverSome(c: Curve, y: int, sign: int)
    requires Complete(c) && 0 <= y < c.p && (sign == 0 || sign == 1) && XSquared(c, y) != 0
    ensures RecoverX(c, y, sign).Some? ==> IsX(c, y, sign, RecoverX(c, y, sign).value)
  {
    var x2 := XSquared(c, y);
    var r := PowMod(x2, (c.p + 3) / 8, c.p);
    var x := if (r * r - x2) % c.p != 0 then r * c.i % c.p else r;
    if (x * x - x2) % c.p == 0 { SignedRoot(c, y, sign, x); }
  }

  lemma {:induction false} RecoverNone(c: Curve, y: int, sign: int)
    requires Complete(c) && 0 <= y < c.p && (sign == 0 || sign == 1) && XSquared(c, y) != 0
    ensures RecoverX(c, y, sign).None? ==> forall x :: !IsX(c, y, sign, x)
  {
    var x2 := XSquared(c, y);
    SmallMod(c.p, x2);
    forall x | IsX(c, y, sign, x) ensures RecoverX(c, y, sign).Some? {
      CurveMeansRoot(c, y, x);
      CandidateRoot(c.p, x2, x);
      TurnedCandidate(c, PowMod(x2, (c.p + 3) / 8, c.p), x2);
    }
  }

  lemma {:induction false} TurnedCandidate(c: Curve, r: int, v: int)
    requires Complete(c) && (Same(c.p, r * r, v) || Same(c.p, r * r, -v))
    ensures var x := if (r * r - v) % c.p != 0 then r * c.i % c.p else r; Same(c.p, x * x, v)
  {
    if (r * r - v) % c.p != 0 { TurnedRoot(c, r, v); }
  }

  lemma {:induction false} RecoverFinds(c: Curve, y: int, sign: int, x: int)
    requires Complete(c) && y >= 0 && (sign == 0 || sign == 1) && IsX(c, y, sign, x)
    ensures RecoverX(c, y, sign) == Some(x)
  {
    RecoverXCorrect(c, y, sign);
    XUnique(c, y, sign, x, RecoverX(c, y, sign).value);
  }

  // ---------------------------------------------------------------- the root of -1

  /** Which of the two roots of -1 is used makes no difference. */
  lemma {:induction false} RootDoesNotMatter(c: Curve, j: int, y: int, sign: int)
    requires Complete(c) && Complete(c.(i := j)) && y >= 0 && (sign == 0 || sign == 1)
    ensures RecoverX(c, y, sign) == RecoverX(c.(i := j), y, sign)
  {
    var x, w := RecoverX(c, y, sign), RecoverX(c.(i := j), y, sign);
    RecoverXCorrect(c, y, sign);
    RecoverXCorrect(c.(i := j), y, sign);
    if x.Some? { RecoverFinds(c.(i := j), y, sign, x.value); }
    if w.Some? { RecoverFinds(c, y, sign, w.value); }
  }

  // ---------------------------------------------------------------- the 32-byte encoding

  const SIGN_BIT := 0x8000000000000000000000000000000000000000000000000000000000000000

  function Little(s: seq<byte>): nat {
    if s == [] then 0 else s[0] + 256 * Little(s[1..])
  }

  function LittleBytes(v: nat, n: nat): (s: seq<byte>)
    ensures |s| == n
  {
    if n == 0 then [] else [v % 256] + LittleBytes(v / 256, n - 1)
  }

  /** Little-endian: a byte behind `n` others counts 256 to the power `n`. */
  lemma {:induction false} LittleGrows(s: seq<byte>, b: byte)
    ensures Little([]) == 0 && Little(s + [b]) == Little(s) + Pow(256, |s|) * b
  {
    if s == [] {
      assert s + [b] == [b] && [b][1..] == [];
    } else {
      LittleGrows(s[1..], b);
      assert (s + [b])[1..] == s[1..] + [b];
      PowerShifts(|s|, b);
    }
  }

  lemma {:induction false} PowerShifts(n: nat, b: int)
    requires n > 0
    ensures Pow(256, n) * b == 256 * (Pow(256, n - 1) * b)
  {
  }

  lemma {:induction false} BytesOfLittle(s: seq<byte>)
    ensures LittleBytes(Little(s), |s|) == s
    ensures Little(s) < Pow(256, |s|)
  {
    if s == [] {
    } else {
      BytesOfLittle(s[1..]);
      assert Little(s) / 256 == Little(s[1..]) && Little(s) % 256 == s[0];
    }
  }

  lemma {:induction false} LittleOfBytes(v: nat, n: nat)
    requires v < Pow(256, n)
    ensures Little(LittleBytes(v, n)) == v
  {
    if n == 0 {
    } else {
      LittleOfBytes(v / 256, n - 1);
      var s := LittleBytes(v, n);
      assert s[1..] == LittleBytes(v / 256, n - 1);
    }
  }

  lemma {:induction false} ThirtyTwoBytes()
    ensures Pow(256, 32) == 2 * SIGN_BIT
  {
    PowAdd(256, 4, 4); PowAdd(256, 8, 8); PowAdd(256, 16, 16);
    assert Pow(256, 4) == 0x1_0000_0000;
    assert Pow(256, 8) == 0x1_0000_0000_0000_0000;
    assert Pow(256, 16) == 0x1_0000_0000_0000_0000_0000_0000_0000_0000;
  }

  function DecodePoint(c: Curve, encoded: seq<byte>): Option<Point>
    requires c.p > 2
  {
    if |encoded| != 32 then None
    else
      var v := Little(encoded);
      var y, sign := v % SIGN_BIT, v / SIGN_BIT;
      match RecoverX(c, y, sign)
      case None => None
      case Some(x) => Some(Point(x, y, 1, x * y % c.p))
  }

  function Encode(c: Curve, a: Point): seq<byte>
    requires 2 < c.p <= SIGN_BIT
  {
    var r := ToAffine(c, a);
    LittleBytes(r.y + (if r.x % 2 == 1 then SIGN_BIT else 0), 32)
  }

  lemma {:induction false} SignOf(encoded: seq<byte>)
    requires |encoded| == 32
    ensures Little(encoded) / SIGN_BIT == 0 || Little(encoded) / SIGN_BIT == 1
  {
    BytesOfLittle(encoded);
    ThirtyTwoBytes();
  }

  /** A canonical affine point in extended form. */
  lemma {:induction false} LiftedValid(c: Curve, r: Affine)
    requires Complete(c) && OnCurve(c, r)
    ensures var a := Point(r.x, r.y, 1, r.x * r.y % c.p); Valid(c, a) && ToAffine(c, a) == r
  {
    var a := Point(r.x, r.y, 1, r.x * r.y % c.p);
    SmallMod(c.p, 1);
    SameRefl(c.p, r.x); SameRefl(c.p, r.y); SameMod(c.p, r.x * r.y);
    ExtendedFromCurve(c, a, r);
    RepresentsUnique(c, a, r);
  }

  /** A decoded point is a valid point, and encoding it gives the same bytes back. */
  lemma {:induction false} DecodeThenEncode(c: Curve, encoded: seq<byte>)
    requires Complete(c) && c.p <= SIGN_BIT && DecodePoint(c, encoded).Some?
    ensures Valid(c, DecodePoint(c, encoded).value)
    ensures Encode(c, DecodePoint(c, encoded).value) == encoded
  {
    var v := Little(encoded);
    var y, sign := v % SIGN_BIT, v / SIGN_BIT;
    SignOf(encoded);
    RecoverXCorrect(c, y, sign);
    LiftedValid(c, Affine(RecoverX(c, y, sign).value, y));
    BytesOfLittle(encoded);
  }

  /** What the bytes of an encoding hold. */
  lemma {:induction false} EncodedParts(c: Curve, a: Point)
    requires 2 < c.p <= SIGN_BIT
    ensures var v := Little(Encode(c, a)); v % SIGN_BIT == ToAffine(c, a).y && v / SIGN_BIT == ToAffine(c, a).x % 2
  {
    hide Inverse, Pow, LittleBytes, Little;
    var r := ToAffine(c, a);
    ThirtyTwoBytes();
    SignSplit(r.y, r.x % 2);
    LittleOfBytes(r.y + (if r.x % 2 == 1 then SIGN_BIT else 0), 32);
  }

  lemma {:induction false} SignSplit(y: int, sign: int)
    requires 0 <= y < SIGN_BIT && (sign == 0 || sign == 1)
    ensures var v := y + (if sign == 1 then SIGN_BIT else 0);
      0 <= v < 2 * SIGN_BIT && v % SIGN_BIT == y && v / SIGN_BIT == sign
  {
  }

  /** Every valid point's encoding decodes, to an equal point. */
  lemma {:induction false} EncodeThenDecode(c: Curve, a: Point)
    requires Complete(c) && c.p <= SIGN_BIT && Valid(c, a)
    ensures var d := DecodePoint(c, Encode(c, a)); d.Some? && Valid(c, d.value) && Equal(c, d.value, a)
  {
    var r := ToAffine(c, a);
    var sign := r.x % 2;
    ValidMeans(c, a);
    EncodedParts(c, a);
    assert IsX(c, r.y, sign, r.x);
    RecoverFinds(c, r.y, sign, r.x);
    LiftedValid(c, r);
    EqualCorrect(c, DecodePoint(c, Encode(c, a)).value, a);
  }

  /** No two encodings name the same point, and a failed decoding names none. */
  lemma {:induction false} DecodingIsCanonical(c: Curve, one: seq<byte>, two: seq<byte>)
    requires Complete(c) && c.p <= SIGN_BIT
    ensures (DecodePoint(c, one).Some? && DecodePoint(c, two).Some?
             && Equal(c, DecodePoint(c, one).value, DecodePoint(c, two).value)) ==> one == two
    ensures DecodePoint(c, one).None? ==> forall a :: Valid(c, a) ==> Encode(c, a) != one
  {
    if DecodePoint(c, one).Some? && DecodePoint(c, two).Some?
       && Equal(c, DecodePoint(c, one).value, DecodePoint(c, two).value) {
      DecodeThenEncode(c, one);
      DecodeThenEncode(c, two);
      EqualCorrect(c, DecodePoint(c, one).value, DecodePoint(c, two).value);
    }
    forall a | Valid(c, a) && Encode(c, a) == one ensures DecodePoint(c, one).Some? {
      EncodeThenDecode(c, a);
    }
  }

  // ---------------------------------------------------------------- verification

  /** What the verifier works with: the curve, the order L and the base point B. */
  datatype Parameters = Parameters(curve: Curve, order: nat, base: Point)

  ghost predicate Sound(g: Parameters) {
    && Complete(g.curve) && g.curve.p <= SIGN_BIT && Valid(g.curve, g.base)
    && HasOrder(g.curve, g.order, ToAffine(g.curve, g.base))
  }

  /** The challenge: the hash of R, the key and the message, modulo the order. */
  function Challenge(g: Parameters, hash: seq<byte> -> seq<byte>, r: seq<byte>, key: seq<byte>, message: seq<byte>): nat
    requires g.order > 0
  {
    Little(hash(r + key + message)) % g.order
  }

  /** The accepted signatures: strict decoding, S below the order, and [S]B = R + [k]A in the group. */
  ghost predicate Accepted(g: Parameters, hash: seq<byte> -> seq<byte>, key: seq<byte>, message: seq<byte>,
      signature: seq<byte>)
    requires Sound(g)
  {
    && |key| == 32 && |signature| == 64
    && var a, r := DecodePoint(g.curve, key), DecodePoint(g.curve, signature[..32]);
    && a.Some? && r.Some?
    && var s, b := Little(signature[32..]), ToAffine(g.curve, g.base);
    && s < g.order
    && Multiple(g.curve, s, b)
       == Sum(g.curve, ToAffine(g.curve, r.value),
              Multiple(g.curve, Challenge(g, hash, signature[..32], key, message), ToAffine(g.curve, a.value)))
  }

  method Verify(g: Parameters, hash: seq<byte> -> seq<byte>, key: seq<byte>, message: seq<byte>, signature: seq<byte>)
    returns (accepted: bool)
    requires Sound(g)
    ensures accepted <==> Accepted(g, hash, key, message, signature)
  {
    if |key| != 32 || |signature| != 64 { return false; }
    var a, r := DecodePoint(g.curve, key), DecodePoint(g.curve, signature[..32]);
    if a.None? || r.None? { return false; }
    var s := Little(signature[32..]);
    if s >= g.order { return false; }
    var k := Challenge(g, hash, signature[..32], key, message);
    DecodeThenEncode(g.curve, key);
    DecodeThenEncode(g.curve, signature[..32]);
    var left := Multiply(g.curve, s, g.base);
    var multiple := Multiply(g.curve, k, a.value);
    AddCorrect(g.curve, r.value, multiple);
    EqualCorrect(g.curve, left, Add(g.curve, r.value, multiple));
    accepted := Equal(g.curve, left, Add(g.curve, r.value, multiple));
  }

  /** What is accepted, with the hash written out: of R, the key and the message, in this order, modulo the order. */
  lemma {:induction false} AcceptedExactly(g: Parameters, hash: seq<byte> -> seq<byte>, key: seq<byte>,
      message: seq<byte>, signature: seq<byte>)
    requires Sound(g)
    ensures Accepted(g, hash, key, message, signature) <==>
      && |key| == 32 && |signature| == 64
      && DecodePoint(g.curve, key).Some? && DecodePoint(g.curve, signature[..32]).Some?
      && Little(signature[32..]) < g.order
      && Multiple(g.curve, Little(signature[32..]), ToAffine(g.curve, g.base))
         == Sum(g.curve, ToAffine(g.curve, DecodePoint(g.curve, signature[..32]).value),
                Multiple(g.curve, Little(hash(signature[..32] + key + message)) % g.order,
                         ToAffine(g.curve, DecodePoint(g.curve, key).value)))
  {
    hide DecodePoint, Little, ToAffine, Multiple, Sum, Sound;
  }

  /** For one key, message and R, at most one S is accepted. */
  lemma {:induction false} SignatureUnique(g: Parameters, hash: seq<byte> -> seq<byte>, key: seq<byte>,
      message: seq<byte>, one: seq<byte>, two: seq<byte>)
    requires Sound(g) && Accepted(g, hash, key, message, one) && Accepted(g, hash, key, message, two)
    requires one[..32] == two[..32]
    ensures one == two
  {
    ScalarsEqual(g, Little(one[32..]), Little(two[32..]));
    BytesOfLittle(one[32..]);
    BytesOfLittle(two[32..]);
    assert one == one[..32] + one[32..];
    assert two == two[..32] + two[32..];
  }

  lemma {:induction false} ScalarsEqual(g: Parameters, s: nat, t: nat)
    requires Sound(g) && s < g.order && t < g.order
    requires Multiple(g.curve, s, ToAffine(g.curve, g.base)) == Multiple(g.curve, t, ToAffine(g.curve, g.base))
    ensures s == t
  {
    var b := ToAffine(g.curve, g.base);
    ValidMeans(g.curve, g.base);
    if s < t { MultiplesDiffer(g.curve, g.order, b, s, t); }
    if t < s { MultiplesDiffer(g.curve, g.order, b, t, s); }
  }

  /** `[nonce + k x]B = [nonce]B + [k][x]B`, with the scalar reduced. */
  lemma {:induction false} HonestEquation(g: Parameters, x: nat, nonce: nat, k: nat, kx: nat)
    requires Sound(g) && kx == k * x
    ensures var c, b := g.curve, ToAffine(g.curve, g.base);
      Multiple(c, (nonce + kx) % g.order, b) == Sum(c, Multiple(c, nonce, b), Multiple(c, k, Multiple(c, x, b)))
  {
    var c, b := g.curve, ToAffine(g.curve, g.base);
    ValidMeans(c, g.base);
    MultipleReduced(c, g.order, b, nonce + kx);
    MultipleAdd(c, nonce, kx, b);
    MultipleOfMultiple(c, k, x, b);
  }

  /** A signature made with the secret scalar `x` of the key and any nonce is accepted (RFC 8032 section 5.1.6). */
  lemma {:induction false} HonestSignatureAccepted(g: Parameters, hash: seq<byte> -> seq<byte>, a: Point, r: Point,
      x: nat, nonce: nat, message: seq<byte>, kx: nat)
    requires Sound(g) && Valid(g.curve, a) && Valid(g.curve, r) && g.order <= 2 * SIGN_BIT
    requires ToAffine(g.curve, a) == Multiple(g.curve, x, ToAffine(g.curve, g.base))
    requires ToAffine(g.curve, r) == Multiple(g.curve, nonce, ToAffine(g.curve, g.base))
    requires kx == (Little(hash(Encode(g.curve, r) + Encode(g.curve, a) + message)) % g.order) * x
    ensures Accepted(g, hash, Encode(g.curve, a), message,
                     Encode(g.curve, r) + LittleBytes((nonce + kx) % g.order, 32))
  {
    var c := g.curve;
    var key, first, s := Encode(c, a), Encode(c, r), (nonce + kx) % g.order;
    var signature := first + LittleBytes(s, 32);
    assert signature[..32] == first;
    assert signature[32..] == LittleBytes(s, 32);
    ThirtyTwoBytes();
    LittleOfBytes(s, 32);
    EncodeThenDecode(c, a);
    EncodeThenDecode(c, r);
    EqualCorrect(c, DecodePoint(c, key).value, a);
    EqualCorrect(c, DecodePoint(c, first).value, r);
    HonestEquation(g, x, nonce, Challenge(g, hash, first, key, message), kx);
  }

  // ---------------------------------------------------------------- the constants

  const P := 0x7fffffffffffffffffffffffffffffffffffffffffffffffffffffffffffffed
  const L := 0x1000000000000000000000000000000014def9dea2f79cd65812631a5cf5d3ed
  const D := 0x52036cee2b6ffe738cc740797779e89800700a4d4141d8ab75eb4dca135978a3
  const SQRT_M1 := 0x2b8324804fc1df0b2b4d00993dfbd7a72f431806ad2fe478c4ee1b274a0ea0b0
  const B_X := 0x216936d3cd6e53fec0a4e231fdd6dc5c692cc7609525a7b2c9562d608f25d51a
  const B_Y := 0x6666666666666666666666666666666666666666666666666666666666666658

  const ED25519 := Parameters(Curve(P, D, SQRT_M1), L, Point(B_X, B_Y, 1, B_X * B_Y % P))

  /** What is assumed of the published constants, and nothing else. */
  ghost predicate NumberTheory() {
    Prime(P) && !IsSquare(P, D) && HasOrder(ED25519.curve, L, Affine(B_X, B_Y))
  }

  lemma {:induction false} ConstantShapes()
    ensures P % 8 == 5 && 2 < P <= SIGN_BIT && L > 0
    ensures 0 <= SQRT_M1 < P && 0 <= D < P && 0 <= B_X < P && 0 <= B_Y < P && B_X % 2 == 0
  {
  }

  lemma {:induction false} RootOfMinusOne()
    ensures Same(P, SQRT_M1 * SQRT_M1, -1)
  {
  }

  lemma {:induction false} BaseOnCurve()
    ensures Same(P, D * ((B_X * B_Y) * (B_X * B_Y)), B_Y * B_Y - B_X * B_X - 1)
  {
  }

  lemma {:induction false} ConstantQuotients()
    ensures (D * 121666 - -121665) % P == 0 && (B_Y * 5 - 4) % P == 0
    ensures 121666 % P != 0 && 5 % P != 0
  {
  }

  /** The published constants satisfy everything the verifier's proof needs. */
  lemma {:induction false} ConstantsSound()
    requires NumberTheory()
    ensures Sound(ED25519)
  {
    ConstantShapes();
    RootOfMinusOne();
    BaseOnCurve();
    LiftedValid(ED25519.curve, Affine(B_X, B_Y));
  }

  /** D and the y of B are the quotients the module computes. */
  lemma {:induction false} ConstantsDivided()
    requires Prime(P)
    ensures D == -121665 * PowMod(121666, P - 2, P) % P
    ensures B_Y == 4 * PowMod(5, P - 2, P) % P
  {
    ConstantShapes();
    ConstantQuotients();
    QuotientExactly(P, -121665, 121666, D);
    QuotientExactly(P, 4, 5, B_Y);
  }

  /** The x of B is the one the module recovers. */
  lemma {:induction false} BaseRecovered()
    requires NumberTheory()
    ensures RecoverX(ED25519.curve, B_Y, 0) == Some(B_X)
  {
    ConstantShapes();
    RootOfMinusOne();
    BaseOnCurve();
    RecoverFinds(ED25519.curve, B_Y, 0, B_X);
  }
}
