/**
 Integer polynomial identities behind the addition law of the curve  y^2 - x^2 = 1 + d x^2 y^2.

 For a point (x, y): t = x y, p = y^2 - x^2, q = x^2 + y^2. For two points the numerators of the sum are
 a = x2 y3 + x3 y2 and b = y2 y3 + x2 x3; a' and b' are the same with a minus sign.
 */
module EdwardsAlgebra {
  lemma {:induction false} Exchange(a: int, b: int, c: int, d: int)
    ensures (a * b) * (c * d) == (a * c) * (b * d)
  {
  }

  lemma {:induction false} Rotate(a: int, b: int, c: int)
    ensures (a * b) * c == (a * c) * b == a * (b * c) == b * (a * c)
  {
  }

  lemma {:induction false} Split(a: int, b: int, c: int)
    ensures (a + b) * c == a * c + b * c
    ensures (a - b) * c == a * c - b * c
    ensures c * (a + b) == c * a + c * b
    ensures c * (a - b) == c * a - c * b
  {
  }

  /** The four products of two monomial pairs, each regrouped by variable. */
  lemma {:induction false} Regroup(x: int, y: int, u: int, v: int)
    ensures (x * v) * (y * v) == (x * y) * (v * v) && (x * v) * (x * u) == (x * x) * (u * v)
    ensures (u * y) * (y * v) == (u * v) * (y * y) && (u * y) * (x * u) == (x * y) * (u * u)
  {
    Exchange(x, v, y, v); Exchange(x, v, x, u); Exchange(u, y, v, y); Exchange(x, u, y, u);
  }

  lemma {:induction false} Binomials(a: int, b: int, c: int, d: int)
    ensures (a + b) * (c + d) == a * c + a * d + b * c + b * d
    ensures (a + b) * (c - d) == a * c - a * d + b * c - b * d
    ensures (a - b) * (c + d) == a * c + a * d - b * c - b * d
  {
  }

  lemma {:induction false} Cross(x: int, y: int, u: int, v: int)
    ensures (x * v + u * y) * (y * v + x * u) == (u * v) * (x * x + y * y) + (x * y) * (u * u + v * v)
  {
    Binomials(x * v, u * y, y * v, x * u);
    Regroup(x, y, u, v);
    Split(x * x, y * y, u * v);
    Split(u * u, v * v, x * y);
  }

  lemma {:induction false} CrossPlusMinus(x: int, y: int, u: int, v: int)
    ensures (x * v + u * y) * (y * v - x * u) == (x * y) * (v * v - u * u) + (u * v) * (y * y - x * x)
  {
    Binomials(x * v, u * y, y * v, x * u);
    Regroup(x, y, u, v);
    Split(y * y, x * x, u * v);
    Split(v * v, u * u, x * y);
  }

  lemma {:induction false} CrossMinusPlus(x: int, y: int, u: int, v: int)
    ensures (x * v - u * y) * (y * v + x * u) == (x * y) * (v * v - u * u) - (u * v) * (y * y - x * x)
  {
    Binomials(x * v, u * y, y * v, x * u);
    Regroup(x, y, u, v);
    Split(y * y, x * x, u * v);
    Split(v * v, u * u, x * y);
  }

  lemma {:induction false} Norm(x: int, y: int, u: int, v: int)
    ensures (y * v + x * u) * (y * v + x * u) - (x * v + u * y) * (x * v + u * y) == (y * y - x * x) * (v * v - u * u)
  {
    Binomials(y * v, x * u, y * v, x * u);
    Binomials(x * v, u * y, x * v, u * y);
    Exchange(y, v, y, v); Exchange(x, u, x, u); Exchange(x, v, x, v); Exchange(u, y, u, y);
    assert (y * v) * (x * u) == (x * v) * (u * y);
    Split(y * y, x * x, v * v - u * u);
    Split(v * v, u * u, y * y); Split(v * v, u * u, x * x);
  }

  lemma {:induction false} NormPlus(x: int, y: int, u: int, v: int)
    ensures (y * v + x * u) * (y * v + x * u) + (x * v + u * y) * (x * v + u * y)
         == (x * x + y * y) * (u * u + v * v) + 4 * ((x * y) * (u * v))
  {
    Binomials(y * v, x * u, y * v, x * u);
    Binomials(x * v, u * y, x * v, u * y);
    Exchange(y, v, y, v); Exchange(x, u, x, u); Exchange(x, v, x, v); Exchange(u, y, u, y);
    Exchange(y, v, x, u); Exchange(x, v, u, y);
    Split(x * x, y * y, u * u + v * v);
    Split(u * u, v * v, y * y); Split(u * u, v * v, x * x);
  }

  /** `q^2 = p^2 + 4 t^2`. */
  lemma {:induction false} SquaredNorms(x: int, y: int)
    ensures (x * x + y * y) * (x * x + y * y) == (y * y - x * x) * (y * y - x * x) + 4 * ((x * y) * (x * y))
  {
    Binomials(x * x, y * y, x * x, y * y);
    Binomials(y * y, -(x * x), y * y, -(x * x));
    Exchange(x, x, y, y);
  }

  /** `b^2 (1 + e)^2 - a^2 (1 - e)^2 = (b^2 - a^2)(1 + e^2) + 2 e (b^2 + a^2)`, for squares `aa` and `bb`. */
  lemma {:induction false} SquaredDenominators(aa: int, bb: int, e: int)
    ensures bb * ((1 + e) * (1 + e)) - aa * ((1 - e) * (1 - e)) == (bb - aa) * (1 + e * e) + 2 * (e * (bb + aa))
  {
    assert (1 + e) * (1 + e) == 1 + e * e + 2 * e && (1 - e) * (1 - e) == 1 + e * e - 2 * e;
    Split(1 + e * e, 2 * e, bb); Split(1 + e * e, 2 * e, aa);
    Split(bb, aa, 1 + e * e); Split(bb, aa, e);
  }

  /** `d (t1 q2 + t2 q1)^2`, written with `e = d t1 t2`. */
  lemma {:induction false} SquaredCross(d: int, t1: int, t2: int, q1: int, q2: int)
    ensures d * ((t2 * q1 + t1 * q2) * (t2 * q1 + t1 * q2))
         == (d * (t1 * t1)) * (q2 * q2) + (d * (t2 * t2)) * (q1 * q1) + 2 * ((d * (t1 * t2)) * (q1 * q2))
  {
    Binomials(t2 * q1, t1 * q2, t2 * q1, t1 * q2);
    Exchange(t2, q1, t2, q1); Exchange(t1, q2, t1, q2); Exchange(t2, q1, t1, q2);
    var u, v, w := (t2 * t2) * (q1 * q1), (t1 * t1) * (q2 * q2), (t1 * t2) * (q1 * q2);
    assert d * (u + 2 * w + v) == d * u + 2 * (d * w) + d * v;
    Rotate(d, t1 * t1, q2 * q2); Rotate(d, t2 * t2, q1 * q1); Rotate(d, t1 * t2, q1 * q2);
  }

  lemma {:induction false} FourthPowers(d: int, t: int, u: int)
    ensures (d * (t * t)) * (4 * (u * u)) == 4 * ((d * (t * u)) * (t * u)) == (d * (u * u)) * (4 * (t * t))
  {
    Rotate(d, t * t, u * u); Rotate(d, u * u, t * t); Rotate(d, t * u, t * u);
    Exchange(t, t, u, u);
    Rotate(4, d * (t * t), u * u); Rotate(4, d * (u * u), t * t);
  }

  /** The curve equation of a sum without its denominators, up to the terms the curve equations settle. */
  lemma {:induction false} ClosureIdentity(d: int, x: int, y: int, u: int, v: int)
    ensures var a, b, e := x * v + u * y, y * v + x * u, d * ((x * y) * (u * v));
      var p1, p2, t1, t2 := y * y - x * x, v * v - u * u, x * y, u * v;
      (b * b) * ((1 + e) * (1 + e)) - (a * a) * ((1 - e) * (1 - e)) - d * ((a * b) * (a * b))
      == (p1 * p2) * (1 + e * e) - (d * (t1 * t1)) * (p2 * p2) - (d * (t2 * t2)) * (p1 * p1)
  {
    var a, b, e := x * v + u * y, y * v + x * u, d * ((x * y) * (u * v));
    var t1, t2, q1, q2 := x * y, u * v, x * x + y * y, u * u + v * v;
    var p1, p2 := y * y - x * x, v * v - u * u;
    SquaredDenominators(a * a, b * b, e);
    Norm(x, y, u, v); NormPlus(x, y, u, v); Cross(x, y, u, v);
    SquaredCross(d, t1, t2, q1, q2);
    SquaredNorms(x, y); SquaredNorms(u, v);
    Split(p2 * p2, 4 * (t2 * t2), d * (t1 * t1)); Split(p1 * p1, 4 * (t1 * t1), d * (t2 * t2));
    FourthPowers(d, t1, t2);
    Split(q1 * q2, 4 * (t1 * t2), e);
  }

  lemma {:induction false} LinearTimesQuadratic(x: int, y: int, l: int, m: int, xx: int, xy: int, yy: int, u: int,
      v: int, w: int, k: int)
    requires y * xx == x * xy && y * xy == x * yy
    ensures (x * l + y * m) * (xx * u + xy * v + yy * w + k)
         == (x * xx) * (l * u) + (x * xy) * (l * v + m * u) + (x * yy) * (l * w + m * v) + (y * yy) * (m * w)
            + x * (l * k) + y * (m * k)
  {
    var s := xx * u + xy * v + yy * w + k;
    assert (x * l + y * m) * s == (x * l) * s + (y * m) * s;
    assert (x * l) * (xx * u + xy * v + yy * w + k) ==
      (x * l) * (xx * u) + (x * l) * (xy * v) + (x * l) * (yy * w) + (x * l) * k;
    assert (y * m) * (xx * u + xy * v + yy * w + k) ==
      (y * m) * (xx * u) + (y * m) * (xy * v) + (y * m) * (yy * w) + (y * m) * k;
    Exchange(x, l, xx, u); Exchange(x, l, xy, v); Exchange(x, l, yy, w);
    Exchange(y, m, xx, u); Exchange(y, m, xy, v); Exchange(y, m, yy, w);
    Split(l * v, m * u, x * xy); Split(l * w, m * v, x * yy);
    Rotate(x, l, k); Rotate(y, m, k);
  }

  lemma {:induction false} HalfCross(x: int, y: int, u: int, v: int)
    ensures 2 * ((y * v + x * u) * (x * y))
         == (x * v + u * y) * (x * x + y * y) + (x * v - u * y) * (y * y - x * x)
  {
    Split(y * v, x * u, x * y);
    Exchange(y, v, x, y); Exchange(x, u, x, y);
    assert (y * v) * (x * y) == (x * v) * (y * y) && (x * u) * (x * y) == (u * y) * (x * x);
    Binomials(x * v, u * y, x * x, y * y);
    Binomials(x * v, -(u * y), y * y, x * x);
  }

  lemma {:induction false} HalfDot(x: int, y: int, u: int, v: int)
    ensures (y * v + x * u) * (x * x + y * y) - 2 * ((x * v + u * y) * (x * y))
         == (y * v - x * u) * (y * y - x * x)
  {
    Split(x * v, u * y, x * y);
    assert (x * v) * (x * y) == (y * v) * (x * x) && (u * y) * (x * y) == (x * u) * (y * y);
    Binomials(y * v, x * u, x * x, y * y);
    Binomials(y * v, -(x * u), y * y, x * x);
  }

  lemma {:induction false} Collect(m: int, a: int, b: int, c: int)
    requires a - b + c == 0
    ensures m * a - m * b + m * c == 0
  {
    Split(a, b, m);
    Split(a - b, c, m);
  }

  /** The cubic form at the centre of associativity, once its coefficients are known to vanish. */
  lemma {:induction false} CubicVanishes(x: int, y: int, xx: int, xy: int, yy: int, a: int, b: int, a': int, b': int,
                      t2: int, t3: int, p2: int, p3: int, q2: int, q3: int)
    requires y * xx == x * xy && y * xy == x * yy
    requires 2 * (b * (t2 - t3)) + a * (q3 - q2) == a' * (p2 + p3)
    requires b * (q2 + q3) - 2 * (a * (t2 + t3)) == b' * (p2 + p3)
    requires a * b' == t2 * p3 + t3 * p2 && a' * b == t2 * p3 - t3 * p2
    ensures (x * b + y * a) * (xx * -(t2 + t3) + xy * q3 + yy * (t2 - t3) + -(t2 * p3))
          - (x * b' + y * a') * (xx * 0 + xy * (p2 + p3) + yy * 0 + -(a * b))
          + (x * -b + y * a) * (xx * -(t2 + t3) + xy * -q2 + yy * -(t2 - t3) + t3 * p2)
         == 0
  {
    var s, e := t2 + t3, t2 - t3;
    LinearTimesQuadratic(x, y, b, a, xx, xy, yy, -s, q3, e, -(t2 * p3));
    LinearTimesQuadratic(x, y, b', a', xx, xy, yy, 0, p2 + p3, 0, -(a * b));
    LinearTimesQuadratic(x, y, -b, a, xx, xy, yy, -s, -q2, -e, t3 * p2);
    Collect(x * xx, b * -s, b' * 0, -b * -s);
    CubicCoefficients(a, b, a', b', s, e, p2 + p3, q2, q3);
    Collect(x * xy, b * q3 + a * -s, b' * (p2 + p3) + a' * 0, -b * -q2 + a * -s);
    Collect(x * yy, b * e + a * q3, b' * 0 + a' * (p2 + p3), -b * -e + a * -q2);
    Collect(y * yy, a * e, a' * 0, a * -e);
    LinearCoefficients(a, b, a', b', t2 * p3, t3 * p2);
    Collect(x, b * -(t2 * p3), b' * -(a * b), -b * (t3 * p2));
    Collect(y, a * -(t2 * p3), a' * -(a * b), a * (t3 * p2));
  }

  lemma {:induction false} CubicCoefficients(a: int, b: int, a': int, b': int, s: int, e: int, p: int, q2: int, q3: int)
    requires 2 * (b * e) + a * (q3 - q2) == a' * p
    requires b * (q2 + q3) - 2 * (a * s) == b' * p
    ensures b * -s - b' * 0 + -b * -s == 0 && a * e - a' * 0 + a * -e == 0
    ensures (b * q3 + a * -s) - (b' * p + a' * 0) + (-b * -q2 + a * -s) == 0
    ensures (b * e + a * q3) - (b' * 0 + a' * p) + (-b * -e + a * -q2) == 0
  {
    Split(q2, q3, b);
    Split(q3, q2, a);
  }

  lemma {:induction false} LinearCoefficients(a: int, b: int, a': int, b': int, u: int, v: int)
    requires a * b' == u + v && a' * b == u - v
    ensures b * -u - b' * -(a * b) + -b * v == 0
    ensures a * -u - a' * -(a * b) + a * v == 0
  {
    Rotate(a, b', b);
    Rotate(a', b, a);
    Split(u, v, b);
    Split(u, v, a);
  }

  /** The two ways to group the numerators of a threefold sum. */
  lemma {:induction false} Groupings(x1: int, y1: int, x2: int, y2: int, x3: int, y3: int)
    ensures var a, b, a', b' := x2 * y3 + x3 * y2, y2 * y3 + x2 * x3, x2 * y3 - x3 * y2, y2 * y3 - x2 * x3;
      var l, r := x1 * y2 + x2 * y1, y1 * y2 + x1 * x2;
      && l * y3 + r * x3 == x1 * b + y1 * a
      && l * y3 - r * x3 == x1 * b' + y1 * a'
      && y3 * r + x3 * l == y1 * b + x1 * a
  {
    Split(x1 * y2, x2 * y1, y3); Split(y1 * y2, x1 * x2, x3);
    Split(y1 * y2, x1 * x2, y3); Split(x1 * y2, x2 * y1, x3);
    Rotate(x1, y2, y3); Rotate(y1, x2, y3); Rotate(y1, y2, x3); Rotate(x1, x2, x3);
    Rotate(y1, y2, y3); Rotate(x1, x2, y3); Rotate(x1, y2, x3); Rotate(y1, x2, x3);
    Split(y2 * y3, x2 * x3, x1); Split(x2 * y3, x3 * y2, y1);
    Split(y2 * y3, x2 * x3, y1); Split(x2 * y3, x3 * y2, x1);
  }

  /** The coefficients of the core identity as a cubic form in the first point vanish. */
  lemma {:induction false} CoefficientsVanish(x2: int, y2: int, x3: int, y3: int)
    ensures var a, b, a', b' := x2 * y3 + x3 * y2, y2 * y3 + x2 * x3, x2 * y3 - x3 * y2, y2 * y3 - x2 * x3;
      var t2, t3, p2, p3 := x2 * y2, x3 * y3, y2 * y2 - x2 * x2, y3 * y3 - x3 * x3;
      var q2, q3 := x2 * x2 + y2 * y2, x3 * x3 + y3 * y3;
      && 2 * (b * (t2 - t3)) + a * (q3 - q2) == a' * (p2 + p3)
      && b * (q2 + q3) - 2 * (a * (t2 + t3)) == b' * (p2 + p3)
      && a * b' == t2 * p3 + t3 * p2 && a' * b == t2 * p3 - t3 * p2
  {
    var a, b, a', b' := x2 * y3 + x3 * y2, y2 * y3 + x2 * x3, x2 * y3 - x3 * y2, y2 * y3 - x2 * x3;
    var t2, t3, p2, p3 := x2 * y2, x3 * y3, y2 * y2 - x2 * x2, y3 * y3 - x3 * x3;
    HalfCross(x2, y2, x3, y3); HalfCross(x3, y3, x2, y2);
    HalfDot(x2, y2, x3, y3); HalfDot(x3, y3, x2, y2);
    CrossPlusMinus(x2, y2, x3, y3); CrossMinusPlus(x2, y2, x3, y3);
    CoefficientSums(a, b, a', b', t2, t3, p2, p3, x2 * x2 + y2 * y2, x3 * x3 + y3 * y3);
  }

  /** The identity at the centre of associativity, free of `d`. */
  lemma {:induction false} AssociativityCore(x1: int, y1: int, x2: int, y2: int, x3: int, y3: int)
    ensures var a, b, a', b' := x2 * y3 + x3 * y2, y2 * y3 + x2 * x3, x2 * y3 - x3 * y2, y2 * y3 - x2 * x3;
      var l, r := x1 * y2 + x2 * y1, y1 * y2 + x1 * x2;
      var t1, t2, t3 := x1 * y1, x2 * y2, x3 * y3;
      var p1, p2, p3 := y1 * y1 - x1 * x1, y2 * y2 - x2 * x2, y3 * y3 - x3 * x3;
      var q1, q3 := x1 * x1 + y1 * y1, x3 * x3 + y3 * y3;
      (x1 * b + y1 * a) * (t2 * (p1 - p3) + t1 * q3 - t3 * q1)
        - (x1 * b' + y1 * a') * (t1 * (p2 + p3) - a * b)
        + (y1 * a - x1 * b) * (t3 * (p1 + p2) - l * r)
      == 0
  {
    var a, b, a', b' := x2 * y3 + x3 * y2, y2 * y3 + x2 * x3, x2 * y3 - x3 * y2, y2 * y3 - x2 * x3;
    var t2, t3, p2, p3 := x2 * y2, x3 * y3, y2 * y2 - x2 * x2, y3 * y3 - x3 * x3;
    var q2, q3 := x2 * x2 + y2 * y2, x3 * x3 + y3 * y3;
    CoefficientsVanish(x2, y2, x3, y3);
    Rotate(x1, x1, y1); Rotate(y1, y1, x1);
    CubicVanishes(x1, y1, x1 * x1, x1 * y1, y1 * y1, a, b, a', b', t2, t3, p2, p3, q2, q3);
    Cross(x1, y1, x2, y2);
    QuadraticForms(x1 * x1, x1 * y1, y1 * y1, t2, t3, p2, p3, q2, q3);
    var xx, xy, yy, p1 := x1 * x1, x1 * y1, y1 * y1, y1 * y1 - x1 * x1;
    assert xx * -(t2 + t3) + xy * q3 + yy * (t2 - t3) + -(t2 * p3) == t2 * (p1 - p3) + xy * q3 - t3 * (xx + yy);
    assert xx * 0 + xy * (p2 + p3) + yy * 0 + -(a * b) == xy * (p2 + p3) - a * b;
    assert xx * -(t2 + t3) + xy * -q2 + yy * -(t2 - t3) + t3 * p2
        == t3 * (p1 + p2) - (x1 * y2 + x2 * y1) * (y1 * y2 + x1 * x2);
    assert x1 * -b + y1 * a == y1 * a - x1 * b;
  }

  lemma {:induction false} CoefficientSums(a: int, b: int, a': int, b': int, t2: int, t3: int, p2: int, p3: int,
      q2: int, q3: int)
    requires 2 * (b * t2) == a * q2 + a' * p2 && 2 * (b * t3) == a * q3 - a' * p3
    requires b * q2 - 2 * (a * t2) == b' * p2 && b * q3 - 2 * (a * t3) == b' * p3
    ensures 2 * (b * (t2 - t3)) + a * (q3 - q2) == a' * (p2 + p3)
    ensures b * (q2 + q3) - 2 * (a * (t2 + t3)) == b' * (p2 + p3)
  {
    Split(t2, t3, b); Split(q3, q2, a); Split(p2, p3, a');
    Split(q2, q3, b); Split(t2, t3, a); Split(p2, p3, b');
  }

  lemma {:induction false} QuadraticForms(xx: int, xy: int, yy: int, t2: int, t3: int, p2: int, p3: int, q2: int,
      q3: int)
    ensures xx * -(t2 + t3) + xy * q3 + yy * (t2 - t3) + -(t2 * p3) == t2 * (yy - xx - p3) + xy * q3 - t3 * (xx + yy)
    ensures xx * -(t2 + t3) + xy * -q2 + yy * -(t2 - t3) + t3 * p2 == t3 * (yy - xx + p2) - (t2 * (xx + yy) + xy * q2)
  {
    Split(t2, t3, xx); Split(t2, t3, yy);
    Split(yy, xx, t2); Split(yy, xx, t3);
    Split(yy - xx, p3, t2); Split(yy - xx, p2, t3);
  }
}
