/** Multiples of a point: the scalar fold of the addition, and what the group law makes of it. */
module EdwardsScalar {
  import opened PrimeField
  import opened EdwardsGroup

  const NEUTRAL := Affine(0, 1)

  /** `n a`, added up one by one. */
  function Multiple(c: Curve, n: nat, a: Affine): Affine
    requires c.p > 2
  {
    if n == 0 then NEUTRAL else Sum(c, Multiple(c, n - 1, a), a)
  }

  lemma {:induction false} NeutralOnCurve(c: Curve)
    requires Complete(c)
    ensures OnCurve(c, NEUTRAL)
  {
    SameRefl(c.p, 0);
    assert c.d * ((0 * 1) * (0 * 1)) == 0;
  }

  lemma {:induction false} SumNeutral(c: Curve, a: Affine)
    requires Complete(c) && OnCurve(c, a)
    ensures Sum(c, a, NEUTRAL) == a && Sum(c, NEUTRAL, a) == a
  {
    NeutralOnCurve(c);
    assert Cross(c, a, NEUTRAL) == 0;
    SameRefl(c.p, a.x);
    SameRefl(c.p, a.y);
    SumUnique(c, a, NEUTRAL, a);
    SumCommutes(c, a, NEUTRAL);
  }

  lemma {:induction false} MultipleOnCurve(c: Curve, n: nat, a: Affine)
    requires Complete(c) && OnCurve(c, a)
    ensures OnCurve(c, Multiple(c, n, a))
  {
    if n == 0 {
      NeutralOnCurve(c);
    } else {
      MultipleOnCurve(c, n - 1, a);
      SumOnCurve(c, Multiple(c, n - 1, a), a);
    }
  }

  /** No time, and once. */
  lemma {:induction false} MultipleStarts(c: Curve, a: Affine)
    requires Complete(c) && OnCurve(c, a)
    ensures Multiple(c, 0, a) == Affine(0, 1) && Multiple(c, 1, a) == a
  {
    SumNeutral(c, a);
  }

  lemma {:induction false} MultipleAdd(c: Curve, m: nat, n: nat, a: Affine)
    requires Complete(c) && OnCurve(c, a)
    ensures Multiple(c, m + n, a) == Sum(c, Multiple(c, m, a), Multiple(c, n, a))
  {
    MultipleOnCurve(c, m, a);
    if n == 0 {
      SumNeutral(c, Multiple(c, m, a));
    } else {
      MultipleAdd(c, m, n - 1, a);
      MultipleOnCurve(c, n - 1, a);
      Associative(c, Multiple(c, m, a), Multiple(c, n - 1, a), a);
    }
  }

  lemma {:induction false} OneMore(n: nat, k: nat) returns (rest: nat)
    requires n > 0
    ensures rest == (n - 1) * k && rest + k == n * k
  {
    rest := (n - 1) * k;
  }

  lemma {:induction false} MultipleOfMultiple(c: Curve, n: nat, k: nat, a: Affine)
    requires Complete(c) && OnCurve(c, a)
    ensures Multiple(c, n, Multiple(c, k, a)) == Multiple(c, n * k, a)
  {
    if n == 0 {
    } else {
      var rest := OneMore(n, k);
      MultipleOfMultiple(c, n - 1, k, a);
      MultipleAdd(c, rest, k, a);
    }
  }

  lemma {:induction false} MultipleOne(c: Curve, a: Affine)
    requires Complete(c) && OnCurve(c, a)
    ensures Multiple(c, 1, a) == a
  {
    SumNeutral(c, a);
  }

  function Negated(c: Curve, a: Affine): Affine
    requires c.p > 0
  {
    Affine(-a.x % c.p, a.y)
  }

  lemma {:induction false} NegatedCancels(c: Curve, a: Affine)
    requires Complete(c) && OnCurve(c, a)
    ensures OnCurve(c, Negated(c, a)) && Sum(c, Negated(c, a), a) == NEUTRAL
  {
    var m, b := c.p, Negated(c, a);
    SameMod(m, -a.x);
    NegatedEquation(c, a, b.x);
    NegatedNumerators(c, a, b.x);
    SumUnique(c, b, a, NEUTRAL);
  }

  /** The numerators of `(-a) + a`: 0, and y^2 - x^2 = 1 + d t^2 = 1 - e. */
  lemma {:induction false} NegatedNumerators(c: Curve, a: Affine, x': int)
    requires c.p > 0 && CurveEquation(c, a.x, a.y) && Same(c.p, x', -a.x)
    ensures var e := c.d * ((x' * a.y) * (a.x * a.y));
      && Same(c.p, 0 * (1 + e), x' * a.y + a.x * a.y) && Same(c.p, 1 * (1 - e), a.y * a.y + x' * a.x)
  {
    var m, t, yy := c.p, a.x * a.y, a.y * a.y;
    NegatedProduct(m, a.x, a.y, x');
    SameRefl(m, t);
    SameAdd(m, x' * a.y, -t, t, t);
    SameSym(m, x' * a.y + t, 0);
    NegatedProduct(m, a.x, a.x, x');
    SameRefl(m, yy);
    SameAdd(m, yy, yy, x' * a.x, -(a.x * a.x));
    NegatedCrossValue(c, a, x');
    NegatedY(m, yy - a.x * a.x, c.d * (t * t), c.d * ((x' * a.y) * t), yy + x' * a.x);
  }

  lemma {:induction false} NegatedY(m: int, p: int, dt: int, e: int, n: int)
    requires m > 0 && Same(m, dt, p - 1) && Same(m, e, -dt) && Same(m, n, p)
    ensures Same(m, 1 * (1 - e), n)
  {
    SameNeg(m, e, -dt);
    SameTrans(m, -e, dt, p - 1);
    SameRefl(m, 1);
    SameAdd(m, 1, 1, -e, p - 1);
    SameSym(m, n, p);
    SameTrans(m, 1 - e, p, n);
  }

  lemma {:induction false} NegatedProduct(m: int, x: int, y: int, x': int)
    requires m > 0 && Same(m, x', -x)
    ensures Same(m, x' * y, -(x * y)) && Same(m, x' * x', x * x)
    ensures Same(m, (x' * y) * (x' * y), (x * y) * (x * y))
  {
    SameRefl(m, y);
    SameMul(m, x', -x, y, y);
    assert -x * y == -(x * y);
    SameMul(m, x', -x, x', -x);
    assert -x * -x == x * x;
    var t := x * y;
    SameMul(m, x' * y, -t, x' * y, -t);
    assert -t * -t == t * t;
  }

  lemma {:induction false} NegatedEquation(c: Curve, a: Affine, x': int)
    requires c.p > 0 && CurveEquation(c, a.x, a.y) && Same(c.p, x', -a.x)
    ensures CurveEquation(c, x', a.y)
  {
    var m, t, s := c.p, a.x * a.y, x' * a.y;
    NegatedProduct(m, a.x, a.y, x');
    SameScale(m, c.d, s * s, t * t);
    SameTrans(m, c.d * (s * s), c.d * (t * t), a.y * a.y - a.x * a.x - 1);
    SameSym(m, x' * x', a.x * a.x);
    SameRefl(m, a.y * a.y - 1);
    SameSub(m, a.y * a.y - 1, a.y * a.y - 1, a.x * a.x, x' * x');
    SameTrans(m, c.d * (s * s), a.y * a.y - 1 - a.x * a.x, a.y * a.y - 1 - x' * x');
  }

  lemma {:induction false} NegatedCrossValue(c: Curve, a: Affine, x': int)
    requires c.p > 0 && Same(c.p, x', -a.x)
    ensures Same(c.p, c.d * ((x' * a.y) * (a.x * a.y)), -(c.d * ((a.x * a.y) * (a.x * a.y))))
  {
    var m, t := c.p, a.x * a.y;
    NegatedProduct(m, a.x, a.y, x');
    SameRefl(m, t);
    SameMul(m, x' * a.y, -t, t, t);
    SameScale(m, c.d, (x' * a.y) * t, -t * t);
    assert -t * t == -(t * t);
    assert c.d * -(t * t) == -(c.d * (t * t));
  }

  lemma {:induction false} CancelLeft(c: Curve, a: Affine, b: Affine)
    requires Complete(c) && OnCurve(c, a) && OnCurve(c, b) && Sum(c, a, b) == a
    ensures b == NEUTRAL
  {
    var n := Negated(c, a);
    NegatedCancels(c, a);
    Associative(c, n, a, b);
    SumNeutral(c, b);
  }

  /** `a` has order `l`. */
  ghost predicate HasOrder(c: Curve, l: nat, a: Affine)
    requires c.p > 2
  {
    l > 0 && Multiple(c, l, a) == NEUTRAL && forall n :: 0 < n < l ==> Multiple(c, n, a) != NEUTRAL
  }

  /** Below the order, different scalars give different multiples. */
  lemma {:induction false} MultiplesDiffer(c: Curve, l: nat, a: Affine, m: nat, n: nat)
    requires Complete(c) && OnCurve(c, a) && HasOrder(c, l, a) && m < n < l
    ensures Multiple(c, m, a) != Multiple(c, n, a)
  {
    MultipleAdd(c, m, n - m, a);
    MultipleOnCurve(c, m, a);
    MultipleOnCurve(c, n - m, a);
    if Multiple(c, m, a) == Multiple(c, n, a) {
      CancelLeft(c, Multiple(c, m, a), Multiple(c, n - m, a));
    }
  }

  lemma {:induction false} NeutralMultiple(c: Curve, n: nat)
    requires Complete(c)
    ensures Multiple(c, n, NEUTRAL) == NEUTRAL
  {
    if n == 0 {
    } else {
      NeutralMultiple(c, n - 1);
      NeutralOnCurve(c);
      SumNeutral(c, NEUTRAL);
    }
  }

  lemma {:induction false} WholeTurns(c: Curve, l: nat, a: Affine, m: nat, q: nat)
    requires Complete(c) && OnCurve(c, a) && HasOrder(c, l, a) && m == q * l
    ensures Multiple(c, m, a) == NEUTRAL
  {
    MultipleOfMultiple(c, q, l, a);
    NeutralMultiple(c, q);
  }

  lemma {:induction false} Division(n: nat, l: nat) returns (q: nat, m: nat, r: nat)
    requires l > 0
    ensures m == q * l && m + r == n && r == n % l
  {
    q, r := n / l, n % l;
    m := q * l;
  }

  /** A scalar may be reduced modulo the order. */
  lemma {:induction false} MultipleReduced(c: Curve, l: nat, a: Affine, n: nat)
    requires Complete(c) && OnCurve(c, a) && HasOrder(c, l, a)
    ensures Multiple(c, n, a) == Multiple(c, n % l, a)
  {
    var q, m, r := Division(n, l);
    WholeTurns(c, l, a, m, q);
    MultipleAdd(c, m, r, a);
    MultipleOnCurve(c, r, a);
    SumNeutral(c, Multiple(c, r, a));
  }
}
