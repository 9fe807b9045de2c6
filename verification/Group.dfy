/** The points of the curve  y^2 - x^2 = 1 + d x^2 y^2  over the integers modulo a prime, and their addition. */
module EdwardsGroup {
  import opened PrimeField
  import Algebra = EdwardsAlgebra

  /** `i` is a square root of -1. */
  datatype Curve = Curve(p: int, d: int, i: int)

  datatype Affine = Affine(x: int, y: int)

  predicate IsRoot(p: int, w: int, v: int)
    requires p > 0
  {
    Same(p, w * w, v)
  }

  ghost predicate IsSquare(p: int, v: int)
    requires p > 0
  {
    exists w :: IsRoot(p, w, v)
  }

  /** What is assumed of the constants: `p` is a prime of the right shape, `i` squares to -1, `d` is no square. */
  ghost predicate Complete(c: Curve) {
    && Prime(c.p) && c.p % 8 == 5
    && 0 <= c.i < c.p && Same(c.p, c.i * c.i, -1)
    && !IsSquare(c.p, c.d)
  }

  /** The curve equation, with `t = x y`:  d t^2 = y^2 - x^2 - 1. */
  predicate CurveEquation(c: Curve, x: int, y: int)
    requires c.p > 0
  {
    Same(c.p, c.d * ((x * y) * (x * y)), y * y - x * x - 1)
  }

  predicate OnCurve(c: Curve, a: Affine)
    requires c.p > 0
  {
    0 <= a.x < c.p && 0 <= a.y < c.p && CurveEquation(c, a.x, a.y)
  }

  function Cross(c: Curve, a: Affine, b: Affine): int {
    c.d * ((a.x * a.y) * (b.x * b.y))
  }

  /** The sum of two points, RFC 8032 section 5.1.4 in affine form. */
  function Sum(c: Curve, a: Affine, b: Affine): (r: Affine)
    requires c.p > 2
    ensures 0 <= r.x < c.p && 0 <= r.y < c.p
  {
    var e := Cross(c, a, b);
    Affine((a.x * b.y + b.x * a.y) * Inverse(c.p, 1 + e) % c.p,
           (a.y * b.y + a.x * b.x) * Inverse(c.p, 1 - e) % c.p)
  }

  // ---------------------------------------------------------------- completeness

  /** `e * e = (p1 - 1) (p2 - 1)`, for `e = d t1 t2`. */
  lemma {:induction false} CrossSquared(m: int, d: int, t1: int, t2: int, u1: int, u2: int)
    requires m > 0 && Same(m, d * (t1 * t1), u1) && Same(m, d * (t2 * t2), u2)
    ensures Same(m, (d * (t1 * t2)) * (d * (t1 * t2)), u1 * u2)
  {
    SameMul(m, d * (t1 * t1), u1, d * (t2 * t2), u2);
    Algebra.Exchange(d, t1 * t1, d, t2 * t2);
    Algebra.Exchange(d, t1 * t2, d, t1 * t2);
    Algebra.Exchange(t1, t1, t2, t2);
  }

  lemma {:induction false} SquareQuotient(m: int, d: int, l: int, r: int)
    requires Prime(m) && m > 2 && r % m != 0 && Same(m, l * l, d * (r * r))
    ensures IsSquare(m, d)
  {
    var v := Inverse(m, r);
    InverseIs(m, r);
    SameMul(m, r * v, 1, r * v, 1);
    Algebra.Exchange(r, v, r, v);
    SameScale(m, d, (r * r) * (v * v), 1);
    SameRefl(m, v * v);
    SameMul(m, l * l, d * (r * r), v * v, v * v);
    Algebra.Exchange(l, l, v, v);
    Algebra.Rotate(d, r * r, v * v);
    SameTrans(m, (l * v) * (l * v), d * ((r * r) * (v * v)), d);
    assert IsRoot(m, l * v, d);
  }

  /** `(i x + s y)^2 = (y^2 - x^2) + 2 s i x y`, for `s` = 1 or -1. */
  lemma {:induction false} TwistedSquare(m: int, i: int, x: int, y: int, s: int)
    requires m > 0 && Same(m, i * i, -1) && (s == 1 || s == -1)
    ensures Same(m, (i * x + s * y) * (i * x + s * y), (y * y - x * x) + 2 * (s * (i * (x * y))))
  {
    Algebra.Binomials(i * x, s * y, i * x, s * y);
    Algebra.Exchange(i, x, i, x);
    Algebra.Exchange(s, y, s, y);
    Algebra.Exchange(i, x, s, y);
    Algebra.Rotate(i, s, x * y);
    SameRefl(m, x * x);
    SameMul(m, i * i, -1, x * x, x * x);
    SameRefl(m, (s * s) * (y * y) + 2 * (s * (i * (x * y))));
    SameAdd(m, (i * i) * (x * x), -1 * (x * x), (s * s) * (y * y) + 2 * (s * (i * (x * y))),
            (s * s) * (y * y) + 2 * (s * (i * (x * y))));
  }

  /** When `d t1 t2 = e` with `e` = 1 or -1, the two twisted squares differ by the factor `d t1^2`. */
  lemma {:induction false} KeySquares(c: Curve, a: Affine, b: Affine, e: int, s: int)
    requires Complete(c) && CurveEquation(c, a.x, a.y) && CurveEquation(c, b.x, b.y)
    requires Same(c.p, Cross(c, a, b), e) && (e == 1 || e == -1) && (s == 1 || s == -1)
    ensures var l := c.i * a.x + (s * e) * a.y; var r := c.i * b.x + s * b.y; var t := a.x * a.y;
      Same(c.p, l * l, c.d * ((t * r) * (t * r)))
  {
    var m, d, t, u := c.p, c.d, a.x * a.y, b.x * b.y;
    var p1, p2 := a.y * a.y - a.x * a.x, b.y * b.y - b.x * b.x;
    var l, r := c.i * a.x + (s * e) * a.y, c.i * b.x + s * b.y;
    TwistedSquare(m, c.i, a.x, a.y, s * e);
    TwistedSquare(m, c.i, b.x, b.y, s);
    var lv, rv := p1 + 2 * ((s * e) * (c.i * t)), p2 + 2 * (s * (c.i * u));
    // d t^2 p2 = d t^2 + e^2 = p1
    NormTransfer(m, d, t, u, p1, p2, e);
    // d t^2 (2 s i u) = 2 s e i t
    LinearTransfer(m, d, t, u, c.i, s, e);
    Algebra.Split(p2, 2 * (s * (c.i * u)), d * (t * t));
    SameAdd(m, (d * (t * t)) * p2, p1, (d * (t * t)) * (2 * (s * (c.i * u))), 2 * ((s * e) * (c.i * t)));
    SameScale(m, d * (t * t), r * r, rv);
    Algebra.Exchange(t, r, t, r);
    Algebra.Rotate(d, t * t, r * r);
    SameTrans(m, d * ((t * r) * (t * r)), (d * (t * t)) * rv, lv);
    SameSym(m, d * ((t * r) * (t * r)), lv);
    SameTrans(m, l * l, lv, d * ((t * r) * (t * r)));
  }

  lemma {:induction false} NormTransfer(m: int, d: int, t: int, u: int, p1: int, p2: int, e: int)
    requires m > 0 && Same(m, d * (t * t), p1 - 1) && Same(m, d * (u * u), p2 - 1)
    requires Same(m, d * (t * u), e) && (e == 1 || e == -1)
    ensures Same(m, (d * (t * t)) * p2, p1)
  {
    CrossSquared(m, d, t, u, p1 - 1, p2 - 1);
    SameMul(m, d * (t * u), e, d * (t * u), e);
    SameSym(m, (d * (t * u)) * (d * (t * u)), (p1 - 1) * (p2 - 1));
    SameTrans(m, (p1 - 1) * (p2 - 1), (d * (t * u)) * (d * (t * u)), 1);
    SameRefl(m, p2);
    SameMul(m, d * (t * t), p1 - 1, p2, p2);
    SameRefl(m, p1 - 1);
    SameAdd(m, (p1 - 1) * (p2 - 1), 1, p1 - 1, p1 - 1);
    assert (p1 - 1) * p2 == (p1 - 1) * (p2 - 1) + (p1 - 1);
    SameTrans(m, (d * (t * t)) * p2, (p1 - 1) * p2, p1);
  }

  lemma {:induction false} LinearTransfer(m: int, d: int, t: int, u: int, i: int, s: int, e: int)
    requires m > 0 && Same(m, d * (t * u), e)
    ensures Same(m, (d * (t * t)) * (2 * (s * (i * u))), 2 * ((s * e) * (i * t)))
  {
    var k := 2 * (s * (i * t));
    SameScale(m, k, d * (t * u), e);
    assert (d * (t * t)) * (2 * (s * (i * u))) == k * (d * (t * u)) by {
      Algebra.Exchange(d, t * t, 2 * s, i * u);
      Algebra.Exchange(t, t, i, u);
      Algebra.Exchange(d, t * u, 2 * s, t * i);
    }
    assert k * e == 2 * ((s * e) * (i * t)) by { Algebra.Rotate(s, e, i * t); }
  }

  lemma {:induction false} OddPrimeDoubles(m: int, v: int)
    requires Prime(m) && m > 2 && (2 * v) % m == 0
    ensures v % m == 0
  {
    Euclid(m, 2, v);
  }

  /** The two denominators of a sum never vanish: completeness of the addition law. */
  lemma {:induction false} DenominatorsNonZero(c: Curve, a: Affine, b: Affine)
    requires Complete(c) && CurveEquation(c, a.x, a.y) && CurveEquation(c, b.x, b.y)
    ensures (1 + Cross(c, a, b)) % c.p != 0 && (1 - Cross(c, a, b)) % c.p != 0
  {
    CrossNotUnit(c, a, b, -1);
    CrossNotUnit(c, a, b, 1);
    var e := Cross(c, a, b);
    assert e - -1 == 1 + e;
    if (1 - e) % c.p == 0 { SameSym(c.p, 1, e); }
  }

  lemma {:induction false} CrossNotUnit(c: Curve, a: Affine, b: Affine, e: int)
    requires Complete(c) && CurveEquation(c, a.x, a.y) && CurveEquation(c, b.x, b.y)
    requires e == 1 || e == -1
    ensures !Same(c.p, Cross(c, a, b), e)
  {
    var m, t, u := c.p, a.x * a.y, b.x * b.y;
    if Same(m, Cross(c, a, b), e) {
      UnitNonZero(m, c.d, t, u, e);
      var plus, minus := c.i * b.x + b.y, c.i * b.x - b.y;
      if plus % m != 0 {
        KeySquares(c, a, b, e, 1);
        ProductNonZero(m, t, plus);
        SquareQuotient(m, c.d, c.i * a.x + (1 * e) * a.y, t * plus);
      } else if minus % m != 0 {
        KeySquares(c, a, b, e, -1);
        ProductNonZero(m, t, minus);
        SquareQuotient(m, c.d, c.i * a.x + (-1 * e) * a.y, t * minus);
      } else {
        SameSub(m, plus, 0, minus, 0);
        OddPrimeDoubles(m, b.y);
        var k := Quotient(m, b.y);
        Algebra.Rotate(b.x, k, m);
        MultipleVanishes(m, b.x * k);
      }
    }
  }

  lemma {:induction false} UnitNonZero(m: int, d: int, t: int, u: int, e: int)
    requires Prime(m) && m > 2 && Same(m, d * (t * u), e) && (e == 1 || e == -1)
    ensures t % m != 0 && u % m != 0
  {
    SameVanishes(m, d * (t * u), e);
    assert e % m != 0;
    if t % m == 0 {
      var k := Quotient(m, t);
      assert d * (t * u) == (d * (k * u)) * m by { Algebra.Rotate(k, m, u); Algebra.Rotate(d, k * u, m); }
      MultipleVanishes(m, d * (k * u));
    }
    if u % m == 0 {
      var k := Quotient(m, u);
      assert d * (t * u) == (d * (t * k)) * m by { Algebra.Rotate(t, k, m); Algebra.Rotate(d, t * k, m); }
      MultipleVanishes(m, d * (t * k));
    }
  }

  // ---------------------------------------------------------------- the sum and its denominators

  /** What `Sum` means: the quotients multiplied out. */
  lemma {:induction false} SumIs(c: Curve, a: Affine, b: Affine)
    requires Complete(c) && CurveEquation(c, a.x, a.y) && CurveEquation(c, b.x, b.y)
    ensures var e, r := Cross(c, a, b), Sum(c, a, b);
      && Same(c.p, r.x * (1 + e), a.x * b.y + b.x * a.y)
      && Same(c.p, r.y * (1 - e), a.y * b.y + a.x * b.x)
  {
    var e := Cross(c, a, b);
    DenominatorsNonZero(c, a, b);
    DivideIs(c.p, a.x * b.y + b.x * a.y, 1 + e);
    DivideIs(c.p, a.y * b.y + a.x * b.x, 1 - e);
  }

  /** The sum is the only point with those quotients. */
  lemma {:induction false} SumUnique(c: Curve, a: Affine, b: Affine, r: Affine)
    requires Complete(c) && CurveEquation(c, a.x, a.y) && CurveEquation(c, b.x, b.y)
    requires 0 <= r.x < c.p && 0 <= r.y < c.p
    requires Same(c.p, r.x * (1 + Cross(c, a, b)), a.x * b.y + b.x * a.y)
    requires Same(c.p, r.y * (1 - Cross(c, a, b)), a.y * b.y + a.x * b.x)
    ensures r == Sum(c, a, b)
  {
    var e, s := Cross(c, a, b), Sum(c, a, b);
    SumIs(c, a, b);
    DenominatorsNonZero(c, a, b);
    CancelTo(c.p, r.x, s.x, 1 + e, a.x * b.y + b.x * a.y);
    CancelTo(c.p, r.y, s.y, 1 - e, a.y * b.y + a.x * b.x);
    SameCanonical(c.p, r.x, s.x);
    SameCanonical(c.p, r.y, s.y);
  }

  lemma {:induction false} CancelTo(m: int, a: int, b: int, z: int, n: int)
    requires Prime(m) && z % m != 0 && Same(m, a * z, n) && Same(m, b * z, n)
    ensures Same(m, a, b)
  {
    SameSym(m, b * z, n);
    SameTrans(m, a * z, n, b * z);
    SameCancel(m, a, b, z);
  }

  lemma {:induction false} SumCommutes(c: Curve, a: Affine, b: Affine)
    requires c.p > 2
    ensures Sum(c, a, b) == Sum(c, b, a)
  {
    Algebra.Rotate(a.x, a.y, b.x * b.y);
    assert Cross(c, a, b) == Cross(c, b, a);
    assert a.x * b.y + b.x * a.y == b.x * a.y + a.x * b.y;
    assert a.y * b.y + a.x * b.x == b.y * a.y + b.x * a.x;
  }

  // ---------------------------------------------------------------- closure

  /**
   The curve equation of a sum, multiplied by the square of both denominators, with e^2 = (p1 - 1)(p2 - 1):
   both sides are (p1 - 1)(p2 - 1) + 1 times p1 p2 plus equal terms.
   */
  lemma {:induction false} ClosureBalance(p1: int, p2: int)
    ensures var f := (p1 - 1) * (p2 - 1);
      (p1 * p2) * (1 + f) == (1 - f) * (1 - f) + (p1 - 1) * (p2 * p2) + (p2 - 1) * (p1 * p1)
  {
    var f, s, t := (p1 - 1) * (p2 - 1), p1 + p2, p1 * p2;
    assert f == t - s + 1;
    assert (s - t) * (s - t) == s * s - 2 * (s * t) + t * t;
    assert t * (2 + t - s) == 2 * t + t * t - t * s;
    assert s * s == p1 * p1 + 2 * t + p2 * p2;
    assert (p1 - 1) * (p2 * p2) == t * p2 - p2 * p2;
    assert (p2 - 1) * (p1 * p1) == t * p1 - p1 * p1;
    assert t * p2 + t * p1 == t * s;
  }

  lemma {:induction false} ClosureNumerators(c: Curve, a: Affine, b: Affine)
    requires Complete(c) && CurveEquation(c, a.x, a.y) && CurveEquation(c, b.x, b.y)
    ensures var e, n1, n2 := Cross(c, a, b), a.x * b.y + b.x * a.y, a.y * b.y + a.x * b.x;
      Same(c.p, c.d * ((n1 * n2) * (n1 * n2)),
           (n2 * n2) * ((1 + e) * (1 + e)) - (n1 * n1) * ((1 - e) * (1 - e)) - (1 - e * e) * (1 - e * e))
  {
    var m, d, t1, t2 := c.p, c.d, a.x * a.y, b.x * b.y;
    var e, p1, p2 := Cross(c, a, b), a.y * a.y - a.x * a.x, b.y * b.y - b.x * b.x;
    var n1, n2 := a.x * b.y + b.x * a.y, a.y * b.y + a.x * b.x;
    var f := (p1 - 1) * (p2 - 1);
    Algebra.ClosureIdentity(d, a.x, a.y, b.x, b.y);
    ClosureBalance(p1, p2);
    CrossSquared(m, d, t1, t2, p1 - 1, p2 - 1);
    SameRefl(m, 1);
    SameAdd(m, 1, 1, e * e, f);
    SameScale(m, p1 * p2, 1 + e * e, 1 + f);
    SameSub(m, 1, 1, e * e, f);
    SameMul(m, 1 - e * e, 1 - f, 1 - e * e, 1 - f);
    SameRefl(m, p2 * p2);
    SameMul(m, d * (t1 * t1), p1 - 1, p2 * p2, p2 * p2);
    SameRefl(m, p1 * p1);
    SameMul(m, d * (t2 * t2), p2 - 1, p1 * p1, p1 * p1);
    ClosureTotal(m, (p1 * p2) * (1 + e * e), (p1 * p2) * (1 + f), (1 - e * e) * (1 - e * e), (1 - f) * (1 - f),
                 (d * (t1 * t1)) * (p2 * p2), (p1 - 1) * (p2 * p2), (d * (t2 * t2)) * (p1 * p1), (p2 - 1) * (p1 * p1),
                 (n2 * n2) * ((1 + e) * (1 + e)) - (n1 * n1) * ((1 - e) * (1 - e)), d * ((n1 * n2) * (n1 * n2)));
  }

  lemma {:induction false} ClosureTotal(m: int, a: int, a': int, b: int, b': int, u: int, u': int, v: int, v': int,
      x: int, y: int)
    requires m > 0 && Same(m, a, a') && Same(m, b, b') && Same(m, u, u') && Same(m, v, v')
    requires a' == b' + u' + v' && x - y == a - u - v
    ensures Same(m, y, x - b)
  {
    SameAdd(m, b, b', u, u');
    SameAdd(m, b + u, b' + u', v, v');
    SameSym(m, a, a');
    SameTrans(m, b + u + v, a', a);
    assert b + u + v - a == y - (x - b);
  }

  /** The sum of two points of the curve is a point of the curve. */
  lemma {:induction false} SumOnCurve(c: Curve, a: Affine, b: Affine)
    requires Complete(c) && CurveEquation(c, a.x, a.y) && CurveEquation(c, b.x, b.y)
    ensures OnCurve(c, Sum(c, a, b))
  {
    var m, r, e := c.p, Sum(c, a, b), Cross(c, a, b);
    var n1, n2 := a.x * b.y + b.x * a.y, a.y * b.y + a.x * b.x;
    SumIs(c, a, b);
    DenominatorsNonZero(c, a, b);
    ClosureNumerators(c, a, b);
    var u, v := 1 + e, 1 - e;
    ProductNonZero(m, u, v);
    ProductNonZero(m, u * v, u * v);
    // d (x y)^2 (u v)^2 = d (n1 n2)^2
    SameMul(m, r.x * u, n1, r.y * v, n2);
    SameMul(m, (r.x * u) * (r.y * v), n1 * n2, (r.x * u) * (r.y * v), n1 * n2);
    SameScale(m, c.d, ((r.x * u) * (r.y * v)) * ((r.x * u) * (r.y * v)), (n1 * n2) * (n1 * n2));
    // (y^2 - x^2 - 1) (u v)^2 = n2^2 u^2 - n1^2 v^2 - (u v)^2
    SameMul(m, r.x * u, n1, r.x * u, n1);
    SameMul(m, r.y * v, n2, r.y * v, n2);
    SameRefl(m, u * u); SameRefl(m, v * v);
    SameMul(m, (r.y * v) * (r.y * v), n2 * n2, u * u, u * u);
    SameMul(m, (r.x * u) * (r.x * u), n1 * n1, v * v, v * v);
    SameSub(m, ((r.y * v) * (r.y * v)) * (u * u), (n2 * n2) * (u * u), ((r.x * u) * (r.x * u)) * (v * v),
            (n1 * n1) * (v * v));
    SameRefl(m, (u * v) * (u * v));
    assert u * v == 1 - e * e;
    var left, right := c.d * ((r.x * r.y) * (r.x * r.y)), r.y * r.y - r.x * r.x - 1;
    var w := (u * v) * (u * v);
    var total := (n2 * n2) * (u * u) - (n1 * n1) * (v * v) - w;
    ClearedCurve(c.d, r.x, r.y, u, v);
    SameTrans(m, left * w, c.d * ((n1 * n2) * (n1 * n2)), total);
    SameSub(m, ((r.y * v) * (r.y * v)) * (u * u) - ((r.x * u) * (r.x * u)) * (v * v),
            (n2 * n2) * (u * u) - (n1 * n1) * (v * v), w, w);
    CancelTo(m, left, right, w, total);
  }

  lemma {:induction false} ClearedCurve(d: int, x: int, y: int, u: int, v: int)
    ensures var w := (u * v) * (u * v);
      && (d * ((x * y) * (x * y))) * w == d * (((x * u) * (y * v)) * ((x * u) * (y * v)))
      && (y * y - x * x - 1) * w == ((y * v) * (y * v)) * (u * u) - ((x * u) * (x * u)) * (v * v) - w
  {
    var w := (u * v) * (u * v);
    Algebra.Exchange(x, u, y, v);
    Algebra.Exchange(x * y, u * v, x * y, u * v);
    Algebra.Rotate(d, (x * y) * (x * y), w);
    Algebra.Exchange(u, v, u, v);
    Algebra.Exchange(y, v, y, v);
    Algebra.Exchange(x, u, x, u);
    Algebra.Rotate(y * y, v * v, u * u);
    Algebra.Rotate(x * x, u * u, v * v);
    Algebra.Split(y * y, x * x, w);
  }

  // ---------------------------------------------------------------- associativity

  /** A denominator of a threefold sum times the `t` of the outer point, without `d`. */
  lemma {:induction false} DenominatorTimes(m: int, d: int, x: int, y: int, a: int, b: int, f: int, p2: int, p3: int)
    requires m > 0 && Same(m, d * ((x * y) * (x * y)), y * y - x * x - 1)
    requires Same(m, f * f, (p2 - 1) * (p3 - 1)) && b * b - a * a == p2 * p3
    ensures var t := x * y;
      Same(m, t * ((1 - f * f) + d * ((a * b) * t)), (t * (p2 + p3) - a * b) + (y * a - x * b) * (y * b + x * a))
  {
    var t, p := x * y, y * y - x * x;
    var g := (p2 - 1) * (p3 - 1);
    SameRefl(m, 1);
    SameSub(m, 1, 1, f * f, g);
    SameScale(m, t, 1 - f * f, 1 - g);
    SameRefl(m, a * b);
    SameMul(m, d * (t * t), p - 1, a * b, a * b);
    SameAdd(m, t * (1 - f * f), t * (1 - g), (d * (t * t)) * (a * b), (p - 1) * (a * b));
    assert t * ((1 - f * f) + d * ((a * b) * t)) == t * (1 - f * f) + (d * (t * t)) * (a * b) by {
      Algebra.Split(1 - f * f, d * ((a * b) * t), t);
      Algebra.Rotate(t, d, (a * b) * t);
      Algebra.Rotate(t, a * b, t);
      Algebra.Rotate(d, t * t, a * b);
    }
    assert t * (1 - g) + (p - 1) * (a * b) == (t * (p2 + p3) - a * b) + (y * a - x * b) * (y * b + x * a) by {
      Algebra.CrossMinusPlus(x, y, a, b);
      Algebra.Split(p, 1, a * b);
      assert g == p2 * p3 - (p2 + p3) + 1;
      Algebra.Split(p2 + p3, p2 * p3, t);
    }
  }

  /** The difference of the two denominators. */
  lemma {:induction false} DenominatorDifference(m: int, d: int, t1: int, t2: int, t3: int, p1: int, p3: int,
      q1: int, q2: int, q3: int)
    requires m > 0 && Same(m, d * (t1 * t1), p1 - 1) && Same(m, d * (t3 * t3), p3 - 1)
    ensures var e, f := d * (t1 * t2), d * (t2 * t3);
      Same(m, ((1 - f * f) + d * ((t3 * q2 + t2 * q3) * t1)) - ((1 - e * e) + d * ((t2 * q1 + t1 * q2) * t3)),
           d * (t2 * (t2 * (p1 - p3) + t1 * q3 - t3 * q1)))
  {
    var e, f, s := d * (t1 * t2), d * (t2 * t3), d * (t2 * t2);
    SameRefl(m, s);
    SameMul(m, d * (t1 * t1), p1 - 1, s, s);
    SameMul(m, d * (t3 * t3), p3 - 1, s, s);
    SameSub(m, (d * (t1 * t1)) * s, (p1 - 1) * s, (d * (t3 * t3)) * s, (p3 - 1) * s);
    assert e * e == (d * (t1 * t1)) * s by {
      Algebra.Exchange(d, t1 * t2, d, t1 * t2);
      Algebra.Exchange(t1, t2, t1, t2);
      Algebra.Exchange(d, t1 * t1, d, t2 * t2);
    }
    assert f * f == (d * (t3 * t3)) * s by {
      Algebra.Exchange(d, t2 * t3, d, t2 * t3);
      Algebra.Exchange(t2, t3, t2, t3);
      Algebra.Exchange(d, t3 * t3, d, t2 * t2);
      Algebra.Rotate(t2 * t2, t3 * t3, 1);
    }
    assert (p1 - 1) * s - (p3 - 1) * s == d * (t2 * (t2 * (p1 - p3))) by {
      Algebra.Split(p1 - 1, p3 - 1, s);
      Algebra.Rotate(d, t2 * t2, p1 - p3); Algebra.Rotate(t2, t2, p1 - p3);
    }
    var r := d * (t2 * (t1 * q3 - t3 * q1));
    assert d * ((t3 * q2 + t2 * q3) * t1) - d * ((t2 * q1 + t1 * q2) * t3) == r by {
      Algebra.Split(t3 * q2, t2 * q3, t1); Algebra.Split(t2 * q1, t1 * q2, t3);
      Algebra.Rotate(t3, q2, t1); Algebra.Rotate(t1, q2, t3); Algebra.Rotate(t2, q3, t1); Algebra.Rotate(t2, q1, t3);
      Algebra.Rotate(t3, t1, q2);
      Algebra.Split(t1 * q3, t3 * q1, t2);
      Algebra.Split((t3 * q2 + t2 * q3) * t1, (t2 * q1 + t1 * q2) * t3, d);
    }
    SameRefl(m, r);
    SameAdd(m, (d * (t1 * t1)) * s - (d * (t3 * t3)) * s, (p1 - 1) * s - (p3 - 1) * s, r, r);
    Algebra.Split(t2 * (p1 - p3), t1 * q3 - t3 * q1, t2);
    Algebra.Split(t2 * (t2 * (p1 - p3)), t2 * (t1 * q3 - t3 * q1), d);
  }

  /** Numerator and denominator of the x of `(a + b) + c`, with the denominators of `a + b` multiplied out. */
  function Numerator(c: Curve, a: Affine, b: Affine, q: Affine): int {
    var e := Cross(c, a, b);
    ((a.x * b.y + b.x * a.y) * q.y) * (1 - e) + ((a.y * b.y + a.x * b.x) * q.x) * (1 + e)
  }

  function Denominator(c: Curve, a: Affine, b: Affine, q: Affine): int {
    var e := Cross(c, a, b);
    (1 - e * e) + c.d * (((a.x * b.y + b.x * a.y) * (a.y * b.y + a.x * b.x)) * (q.x * q.y))
  }

  /** The cross-multiplied numerators, once each piece of them is known modulo `m`. */
  lemma {:induction false} CollectAssociativity(m: int, d: int, t1: int, t2: int, t3: int, s: int, u: int, u': int,
      z: int,
                             dl: int, dr: int, k: int, g: int, h: int)
    requires m > 0
    requires Same(m, dr - dl, d * (t2 * k))
    requires Same(m, t1 * dr, g + u' * z) && Same(m, t3 * dl, h + u * z)
    requires s * k - u * g + u' * h == 0
    ensures Same(m, (s - (d * (t1 * t2)) * u) * dr, (s - (d * (t2 * t3)) * u') * dl)
  {
    var w, e, f := d * t2, d * (t1 * t2), d * (t2 * t3);
    Algebra.Rotate(d, t2, k);
    SameScale(m, s, dr - dl, w * k);
    SameScale(m, w * u, t1 * dr, g + u' * z);
    SameScale(m, w * u', t3 * dl, h + u * z);
    SameSub(m, s * (dr - dl), s * (w * k), (w * u) * (t1 * dr), (w * u) * (g + u' * z));
    SameAdd(m, s * (dr - dl) - (w * u) * (t1 * dr), s * (w * k) - (w * u) * (g + u' * z),
            (w * u') * (t3 * dl), (w * u') * (h + u * z));
    CollectTerm(d, t1, t2, u, dr);
    CollectTerm(d, t3, t2, u', dl);
    assert t2 * t3 == t3 * t2;
    CollectDifference(s, e * u, f * u', dl, dr);
    CollectVanishes(w, s, k, u, u', g, h, z);
  }

  lemma {:induction false} CollectTerm(d: int, t: int, t2: int, u: int, v: int)
    ensures ((d * t2) * u) * (t * v) == ((d * (t * t2)) * u) * v
  {
    Algebra.Exchange(d * t2, u, t, v);
    Algebra.Rotate(d, t2, t);
    Algebra.Rotate(d * (t * t2), u, v);
    assert t2 * t == t * t2;
  }

  lemma {:induction false} CollectDifference(s: int, eu: int, fu: int, dl: int, dr: int)
    ensures s * (dr - dl) - eu * dr + fu * dl == (s - eu) * dr - (s - fu) * dl
  {
    Algebra.Split(dr, dl, s); Algebra.Split(s, eu, dr); Algebra.Split(s, fu, dl);
  }

  lemma {:induction false} CollectVanishes(w: int, s: int, k: int, u: int, u': int, g: int, h: int, z: int)
    requires s * k - u * g + u' * h == 0
    ensures s * (w * k) - (w * u) * (g + u' * z) + (w * u') * (h + u * z) == 0
  {
    var gz, hz := g + u' * z, h + u * z;
    Algebra.Rotate(w, u, gz); Algebra.Rotate(w, u', hz); Algebra.Rotate(s, w, k);
    Algebra.Split(g, u' * z, u); Algebra.Split(h, u * z, u');
    Algebra.Rotate(u, u', z);
    assert s * k - u * gz + u' * hz == 0;
    Algebra.Split(s * k, u * gz, w); Algebra.Split(s * k - u * gz, u' * hz, w);
  }

  ghost predicate AllOnCurve(c: Curve, a: Affine, b: Affine, q: Affine)
  {
    Complete(c) && CurveEquation(c, a.x, a.y) && CurveEquation(c, b.x, b.y) && CurveEquation(c, q.x, q.y)
  }

  lemma {:induction false} RightDenominator(c: Curve, a: Affine, b: Affine, q: Affine)
    requires AllOnCurve(c, a, b, q)
    ensures var n, o, t1 := b.x * q.y + q.x * b.y, b.y * q.y + b.x * q.x, a.x * a.y;
      var p2, p3 := b.y * b.y - b.x * b.x, q.y * q.y - q.x * q.x;
      Same(c.p, t1 * Denominator(c, b, q, a), (t1 * (p2 + p3) - n * o) + (a.y * n - a.x * o) * (a.y * o + a.x * n))
  {
    var p2, p3 := b.y * b.y - b.x * b.x, q.y * q.y - q.x * q.x;
    CrossSquared(c.p, c.d, b.x * b.y, q.x * q.y, p2 - 1, p3 - 1);
    Algebra.Norm(b.x, b.y, q.x, q.y);
    DenominatorTimes(c.p, c.d, a.x, a.y, b.x * q.y + q.x * b.y, b.y * q.y + b.x * q.x, Cross(c, b, q), p2, p3);
  }

  lemma {:induction false} DenominatorsDiffer(c: Curve, a: Affine, b: Affine, q: Affine)
    requires AllOnCurve(c, a, b, q)
    ensures var t1, t2, t3 := a.x * a.y, b.x * b.y, q.x * q.y;
      var p1, p3 := a.y * a.y - a.x * a.x, q.y * q.y - q.x * q.x;
      var q1, q3 := a.x * a.x + a.y * a.y, q.x * q.x + q.y * q.y;
      Same(c.p, Denominator(c, b, q, a) - Denominator(c, a, b, q), c.d * (t2 * (t2 * (p1 - p3) + t1 * q3 - t3 * q1)))
  {
    Algebra.Cross(a.x, a.y, b.x, b.y); Algebra.Cross(b.x, b.y, q.x, q.y);
    DenominatorDifference(c.p, c.d, a.x * a.y, b.x * b.y, q.x * q.y,
                          a.y * a.y - a.x * a.x, q.y * q.y - q.x * q.x,
                          a.x * a.x + a.y * a.y, b.x * b.x + b.y * b.y, q.x * q.x + q.y * q.y);
  }

  lemma {:induction false} Numerators(c: Curve, a: Affine, b: Affine, q: Affine)
    ensures var n, o := b.x * q.y + q.x * b.y, b.y * q.y + b.x * q.x;
      var s := a.x * (b.y * q.y + b.x * q.x) + a.y * (b.x * q.y + q.x * b.y);
      && Numerator(c, a, b, q) == s - Cross(c, a, b) * ((a.x * b.y + b.x * a.y) * q.y - (a.y * b.y + a.x * b.x) * q.x)
      && Numerator(c, b, q, a) == s - Cross(c, b, q) * (a.y * n - a.x * o)
  {
    var n, o := b.x * q.y + q.x * b.y, b.y * q.y + b.x * q.x;
    Algebra.Groupings(a.x, a.y, b.x, b.y, q.x, q.y);
    NumeratorForm((a.x * b.y + b.x * a.y) * q.y, (a.y * b.y + a.x * b.x) * q.x, Cross(c, a, b));
    NumeratorForm(n * a.y, o * a.x, Cross(c, b, q));
    assert n * a.y == a.y * n && o * a.x == a.x * o;
  }

  /** Cross-multiplied, the x of `(a + b) + q` and of `a + (b + q)` agree. */
  lemma {:induction false} CrossMultiplied(c: Curve, a: Affine, b: Affine, q: Affine)
    requires AllOnCurve(c, a, b, q)
    ensures Same(c.p, Numerator(c, a, b, q) * Denominator(c, b, q, a), Numerator(c, b, q, a) * Denominator(c, a, b, q))
  {
    var t1, t2, t3 := a.x * a.y, b.x * b.y, q.x * q.y;
    var p1, p2, p3 := a.y * a.y - a.x * a.x, b.y * b.y - b.x * b.x, q.y * q.y - q.x * q.x;
    var q1, q3 := a.x * a.x + a.y * a.y, q.x * q.x + q.y * q.y;
    var n, o := b.x * q.y + q.x * b.y, b.y * q.y + b.x * q.x;
    var l, r := a.x * b.y + b.x * a.y, a.y * b.y + a.x * b.x;
    var u, u', z := l * q.y - r * q.x, a.y * n - a.x * o, a.y * o + a.x * n;
    RightDenominator(c, a, b, q);
    DenominatorTimesLeft(c, a, b, q);
    DenominatorsDiffer(c, a, b, q);
    Numerators(c, a, b, q);
    Algebra.Groupings(a.x, a.y, b.x, b.y, q.x, q.y);
    Algebra.AssociativityCore(a.x, a.y, b.x, b.y, q.x, q.y);
    CollectAssociativity(c.p, c.d, t1, t2, t3, a.x * o + a.y * n, u, u', z,
                         Denominator(c, a, b, q), Denominator(c, b, q, a), t2 * (p1 - p3) + t1 * q3 - t3 * q1,
                         t1 * (p2 + p3) - n * o, t3 * (p1 + p2) - l * r);
  }

  lemma {:induction false} DenominatorTimesLeft(c: Curve, a: Affine, b: Affine, q: Affine)
    requires AllOnCurve(c, a, b, q)
    ensures var n, o, t3 := b.x * q.y + q.x * b.y, b.y * q.y + b.x * q.x, q.x * q.y;
      var l, r := a.x * b.y + b.x * a.y, a.y * b.y + a.x * b.x;
      var p1, p2 := a.y * a.y - a.x * a.x, b.y * b.y - b.x * b.x;
      Same(c.p, t3 * Denominator(c, a, b, q), (t3 * (p1 + p2) - l * r) + (l * q.y - r * q.x) * (a.y * o + a.x * n))
  {
    RightDenominator(c, q, a, b);
    Algebra.Groupings(a.x, a.y, b.x, b.y, q.x, q.y);
    var l, r := a.x * b.y + b.x * a.y, a.y * b.y + a.x * b.x;
    assert q.y * l == l * q.y && q.x * r == r * q.x;
  }

  lemma {:induction false} NumeratorForm(g: int, h: int, e: int)
    ensures g * (1 - e) + h * (1 + e) == (g + h) - e * (g - h)
  {
  }

  /** The x of `(a + b) + q` with every denominator multiplied out. */
  lemma {:induction false} ThreefoldX(c: Curve, a: Affine, b: Affine, q: Affine)
    requires AllOnCurve(c, a, b, q)
    ensures Same(c.p, Sum(c, Sum(c, a, b), q).x * Denominator(c, a, b, q), Numerator(c, a, b, q))
    ensures Denominator(c, a, b, q) % c.p != 0
  {
    var m, e, s := c.p, Cross(c, a, b), Sum(c, a, b);
    var g, x := Cross(c, s, q), Sum(c, s, q).x;
    var n1, n2, w := a.x * b.y + b.x * a.y, a.y * b.y + a.x * b.x, (1 + e) * (1 - e);
    SumOnCurve(c, a, b);
    SumIs(c, a, b); SumIs(c, s, q);
    DenominatorsNonZero(c, a, b); DenominatorsNonZero(c, s, q);
    ProductNonZero(m, 1 + e, 1 - e);
    ProductNonZero(m, w, 1 + g);
    DenominatorCleared(m, c.d, s.x, s.y, e, n1, n2, q.x * q.y);
    SameVanishes(m, w * (1 + g), Denominator(c, a, b, q));
    NumeratorCleared(m, s.x, s.y, e, n1, n2, q.x, q.y);
    SameScale(m, x, w * (1 + g), Denominator(c, a, b, q));
    SameSym(m, x * (w * (1 + g)), x * Denominator(c, a, b, q));
    SameScale(m, w, x * (1 + g), s.x * q.y + q.x * s.y);
    Algebra.Rotate(x, w, 1 + g);
    SameTrans(m, x * Denominator(c, a, b, q), w * (x * (1 + g)), w * (s.x * q.y + q.x * s.y));
    SameTrans(m, x * Denominator(c, a, b, q), w * (s.x * q.y + q.x * s.y), Numerator(c, a, b, q));
  }

  lemma {:induction false} DenominatorCleared(m: int, d: int, x: int, y: int, e: int, n1: int, n2: int, t: int)
    requires m > 0 && Same(m, x * (1 + e), n1) && Same(m, y * (1 - e), n2)
    ensures Same(m, ((1 + e) * (1 - e)) * (1 + d * ((x * y) * t)), (1 - e * e) + d * ((n1 * n2) * t))
  {
    var w := (1 + e) * (1 - e);
    SameMul(m, x * (1 + e), n1, y * (1 - e), n2);
    Algebra.Exchange(x, 1 + e, y, 1 - e);
    SameRefl(m, t);
    SameMul(m, (x * y) * w, n1 * n2, t, t);
    SameScale(m, d, ((x * y) * w) * t, (n1 * n2) * t);
    assert w * (1 + d * ((x * y) * t)) == w + d * (((x * y) * w) * t) by {
      Algebra.Split(1, d * ((x * y) * t), w);
      Algebra.Rotate(w, d, (x * y) * t);
      Algebra.Rotate(x * y, t, w);
    }
    SameRefl(m, w);
    SameAdd(m, w, w, d * (((x * y) * w) * t), d * ((n1 * n2) * t));
  }

  lemma {:induction false} NumeratorCleared(m: int, x: int, y: int, e: int, n1: int, n2: int, u: int, v: int)
    requires m > 0 && Same(m, x * (1 + e), n1) && Same(m, y * (1 - e), n2)
    ensures Same(m, ((1 + e) * (1 - e)) * (x * v + u * y), (n1 * v) * (1 - e) + (n2 * u) * (1 + e))
  {
    SameRefl(m, v); SameRefl(m, u); SameRefl(m, 1 - e); SameRefl(m, 1 + e);
    SameMul(m, x * (1 + e), n1, v, v);
    SameMul(m, (x * (1 + e)) * v, n1 * v, 1 - e, 1 - e);
    SameMul(m, y * (1 - e), n2, u, u);
    SameMul(m, (y * (1 - e)) * u, n2 * u, 1 + e, 1 + e);
    SameAdd(m, ((x * (1 + e)) * v) * (1 - e), (n1 * v) * (1 - e), ((y * (1 - e)) * u) * (1 + e), (n2 * u) * (1 + e));
    ClearedTerm(x, v, 1 + e, 1 - e);
    ClearedTerm(y, u, 1 - e, 1 + e);
    Algebra.Split(x * v, y * u, (1 + e) * (1 - e));
    assert u * y == y * u && (1 - e) * (1 + e) == (1 + e) * (1 - e);
  }

  lemma {:induction false} ClearedTerm(x: int, v: int, g: int, h: int)
    ensures ((x * g) * v) * h == (g * h) * (x * v)
  {
    Algebra.Rotate(x, g, v);
    Algebra.Rotate(x * v, g, h);
  }

  lemma {:induction false} AssociativeX(c: Curve, a: Affine, b: Affine, q: Affine)
    requires AllOnCurve(c, a, b, q)
    ensures Sum(c, Sum(c, a, b), q).x == Sum(c, a, Sum(c, b, q)).x
  {
    var m, l, r := c.p, Sum(c, Sum(c, a, b), q).x, Sum(c, a, Sum(c, b, q)).x;
    var dl, dr, nl, nr :=
      Denominator(c, a, b, q), Denominator(c, b, q, a), Numerator(c, a, b, q), Numerator(c, b, q, a);
    ThreefoldX(c, a, b, q);
    ThreefoldX(c, b, q, a);
    SumCommutes(c, a, Sum(c, b, q));
    CrossMultiplied(c, a, b, q);
    ProductNonZero(m, dl, dr);
    SameRefl(m, dr); SameRefl(m, dl);
    SameMul(m, l * dl, nl, dr, dr);
    SameMul(m, r * dr, nr, dl, dl);
    Algebra.Rotate(l, dl, dr);
    Algebra.Rotate(r, dl, dr);
    SameTrans(m, l * (dl * dr), nl * dr, nr * dl);
    CancelTo(m, l, r, dl * dr, nr * dl);
    SameCanonical(m, l, r);
  }

  /** The sum with the point `(i, 0)`: the coordinates trade places. */
  function Rotated(c: Curve, a: Affine): Affine
    requires c.p > 0
  {
    Affine(c.i * a.y % c.p, c.i * a.x % c.p)
  }

  lemma {:induction false} RotatedOnCurve(c: Curve, a: Affine)
    requires Complete(c) && CurveEquation(c, a.x, a.y)
    ensures OnCurve(c, Rotated(c, a))
  {
    var m, r := c.p, Rotated(c, a);
    var t, s := a.x * a.y, r.x * r.y;
    var n, n' := a.y * a.y - a.x * a.x, r.y * r.y - r.x * r.x;
    // t becomes -t, and y^2 - x^2 stays
    RotatedProduct(c, a);
    SameMul(m, s, -t, s, -t);
    assert -t * -t == t * t;
    SameScale(m, c.d, s * s, t * t);
    SameTrans(m, c.d * (s * s), c.d * (t * t), n - 1);
    RotatedNorm(c, a);
    SameRefl(m, 1);
    SameSub(m, n', n, 1, 1);
    SameSym(m, n' - 1, n - 1);
    SameTrans(m, c.d * (s * s), n - 1, n' - 1);
  }

  lemma {:induction false} RotatedNorm(c: Curve, a: Affine)
    requires c.p > 0 && Same(c.p, c.i * c.i, -1)
    ensures var r := Rotated(c, a); Same(c.p, r.y * r.y - r.x * r.x, a.y * a.y - a.x * a.x)
  {
    var m, r := c.p, Rotated(c, a);
    RotatedParts(c, a);
    SquareOfRotated(m, c.i, r.x, a.y);
    SquareOfRotated(m, c.i, r.y, a.x);
    SameSub(m, r.y * r.y, -(a.x * a.x), r.x * r.x, -(a.y * a.y));
  }

  lemma {:induction false} RotatedParts(c: Curve, a: Affine)
    requires c.p > 0
    ensures Same(c.p, Rotated(c, a).x, c.i * a.y) && Same(c.p, Rotated(c, a).y, c.i * a.x)
  {
    SameMod(c.p, c.i * a.y);
    SameMod(c.p, c.i * a.x);
  }

  lemma {:induction false} SquareOfRotated(m: int, i: int, r: int, v: int)
    requires m > 0 && Same(m, i * i, -1) && Same(m, r, i * v)
    ensures Same(m, r * r, -(v * v))
  {
    SameMul(m, r, i * v, r, i * v);
    Algebra.Exchange(i, v, i, v);
    SameRefl(m, v * v);
    SameMul(m, i * i, -1, v * v, v * v);
    SameTrans(m, r * r, (i * i) * (v * v), -(v * v));
  }

  lemma {:induction false} RotatedProduct(c: Curve, a: Affine)
    requires c.p > 0 && Same(c.p, c.i * c.i, -1)
    ensures Same(c.p, Rotated(c, a).x * Rotated(c, a).y, -(a.x * a.y))
  {
    var m, i, r := c.p, c.i, Rotated(c, a);
    RotatedParts(c, a);
    SameMul(m, r.x, i * a.y, r.y, i * a.x);
    Algebra.Exchange(i, a.y, i, a.x);
    SameRefl(m, a.y * a.x);
    SameMul(m, i * i, -1, a.y * a.x, a.y * a.x);
    assert -1 * (a.y * a.x) == -(a.x * a.y);
    SameTrans(m, r.x * r.y, (i * i) * (a.y * a.x), -(a.x * a.y));
  }

  /** Rotating commutes with adding. */
  lemma {:induction false} SumRotated(c: Curve, a: Affine, b: Affine)
    requires Complete(c) && CurveEquation(c, a.x, a.y) && CurveEquation(c, b.x, b.y)
    ensures Sum(c, a, Rotated(c, b)) == Rotated(c, Sum(c, a, b))
  {
    var m, i, r, s := c.p, c.i, Rotated(c, b), Sum(c, a, b);
    var e, e' := Cross(c, a, b), Cross(c, a, r);
    var q := Rotated(c, s);
    RotatedParts(c, b); RotatedParts(c, s); RotatedProduct(c, b); RotatedOnCurve(c, b);
    SumIs(c, a, b);
    SameScale(m, a.x * a.y, r.x * r.y, -(b.x * b.y));
    SameScale(m, c.d, (a.x * a.y) * (r.x * r.y), (a.x * a.y) * -(b.x * b.y));
    NegatedCross(c.d, a.x * a.y, b.x * b.y);
    assert Same(m, e', -e);
    // x: (i y_s)(1 + e') = i (y_s (1 - e)) = i (a.y b.y + a.x b.x)
    RotatedQuotient(m, i, q.x, s.y, 1 + e', 1 - e, a.y * b.y + a.x * b.x, e', -e);
    RotatedNumerator(m, i, a.x, r.y, b.x, a.y, r.x, b.y);
    assert a.y * b.y + a.x * b.x == a.x * b.x + a.y * b.y;
    SameSym(m, a.x * r.y + r.x * a.y, i * (a.x * b.x + a.y * b.y));
    SameTrans(m, q.x * (1 + e'), i * (a.y * b.y + a.x * b.x), a.x * r.y + r.x * a.y);
    // y: (i x_s)(1 - e') = i (x_s (1 + e)) = i (a.x b.y + b.x a.y)
    SameNeg(m, e', -e);
    RotatedQuotient(m, i, q.y, s.x, 1 - e', 1 + e, a.x * b.y + b.x * a.y, -e', e);
    RotatedNumerator(m, i, a.y, r.y, b.x, a.x, r.x, b.y);
    assert a.x * b.y + b.x * a.y == a.y * b.x + a.x * b.y;
    SameSym(m, a.y * r.y + r.x * a.x, i * (a.y * b.x + a.x * b.y));
    SameTrans(m, q.y * (1 - e'), i * (a.x * b.y + b.x * a.y), a.y * r.y + a.x * r.x);
    SumUnique(c, a, r, q);
  }

  lemma {:induction false} NegatedCross(d: int, t: int, u: int)
    ensures d * (t * -u) == -(d * (t * u))
  {
    assert t * -u == -(t * u);
  }

  lemma {:induction false} SameNeg(m: int, a: int, b: int)
    requires m > 0 && Same(m, a, b)
    ensures Same(m, -a, -b)
  {
    SameScale(m, -1, a, b);
  }

  lemma {:induction false} RotatedQuotient(m: int, i: int, q: int, s: int, z': int, z: int, n: int, e': int, e: int)
    requires m > 0 && Same(m, q, i * s) && Same(m, s * z, n) && Same(m, e', e)
    requires z' == 1 + e' && z == 1 + e
    ensures Same(m, q * z', i * n)
  {
    SameRefl(m, 1);
    SameAdd(m, 1, 1, e', e);
    SameMul(m, q, i * s, z', z);
    SameScale(m, i, s * z, n);
    Algebra.Rotate(i, s, z);
    SameTrans(m, q * z', i * (s * z), i * n);
  }

  lemma {:induction false} RotatedNumerator(m: int, i: int, g: int, r: int, u: int, h: int, s: int, v: int)
    requires m > 0 && Same(m, r, i * u) && Same(m, s, i * v)
    ensures Same(m, g * r + s * h, i * (g * u + h * v))
  {
    SameScale(m, g, r, i * u);
    SameRefl(m, h);
    SameMul(m, s, i * v, h, h);
    SameAdd(m, g * r, g * (i * u), s * h, (i * v) * h);
    Algebra.Rotate(g, i, u); Algebra.Rotate(i, v, h);
    Algebra.Split(g * u, h * v, i);
    assert v * h == h * v;
  }

  lemma {:induction false} MinusOneNonZero(m: int)
    requires m > 1
    ensures -1 % m != 0
  {
    assert -1 % m == m - 1;
  }

  lemma {:induction false} RootNonZero(c: Curve)
    requires Complete(c)
    ensures c.i % c.p != 0
  {
    MinusOneNonZero(c.p);
    if c.i % c.p == 0 {
      var k := Quotient(c.p, c.i);
      Algebra.Rotate(c.i, k, c.p);
      MultipleVanishes(c.p, c.i * k);
      SameVanishes(c.p, c.i * c.i, -1);
    }
  }

  /** The addition of the curve is associative. */
  lemma {:induction false} Associative(c: Curve, a: Affine, b: Affine, q: Affine)
    requires AllOnCurve(c, a, b, q)
    ensures Sum(c, Sum(c, a, b), q) == Sum(c, a, Sum(c, b, q))
  {
    var m, i, l, r := c.p, c.i, Sum(c, Sum(c, a, b), q), Sum(c, a, Sum(c, b, q));
    AssociativeX(c, a, b, q);
    SumOnCurve(c, a, b); SumOnCurve(c, b, q);
    RotatedOnCurve(c, q);
    AssociativeX(c, a, b, Rotated(c, q));
    SumRotated(c, Sum(c, a, b), q);
    SumRotated(c, b, q);
    SumRotated(c, a, Sum(c, b, q));
    assert Rotated(c, l).x == Rotated(c, r).x;
    RotatedParts(c, l); RotatedParts(c, r);
    SameSym(m, Rotated(c, l).x, i * l.y);
    SameTrans(m, i * l.y, Rotated(c, l).x, i * r.y);
    assert i * l.y == l.y * i && i * r.y == r.y * i;
    RootNonZero(c);
    SameCancel(m, l.y, r.y, i);
    SameCanonical(m, l.y, r.y);
  }
}
