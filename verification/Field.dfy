module PrimeField {
  ghost predicate Prime(p: int) {
    p > 1 && forall d :: 1 < d < p ==> p % d != 0
  }

  /** `a` and `b` are the same residue modulo `p`. */
  predicate Same(p: int, a: int, b: int)
    requires p > 0
  {
    (a - b) % p == 0
  }

  lemma {:induction false} Quotient(p: int, x: int) returns (k: int)
    requires p > 0 && x % p == 0
    ensures x == k * p
  {
    k := x / p;
  }

  lemma {:induction false} MultipleBounds(p: int, k: int)
    requires p > 0
    ensures k >= 1 ==> k * p >= p
    ensures k <= -1 ==> k * p <= -p
    ensures k == 0 ==> k * p == 0
  {
  }

  lemma {:induction false} MultipleVanishes(p: int, k: int)
    requires p > 0
    ensures (k * p) % p == 0
  {
    var q := (k * p) / p;
    assert (k * p) % p == k * p - q * p == (k - q) * p;
    MultipleBounds(p, k - q);
  }

  lemma {:induction false} SameFrom(p: int, a: int, b: int, k: int)
    requires p > 0 && a - b == k * p
    ensures Same(p, a, b)
  {
    MultipleVanishes(p, k);
  }

  lemma {:induction false} SameRefl(p: int, a: int)
    requires p > 0
    ensures Same(p, a, a)
  {
    SameFrom(p, a, a, 0);
  }

  lemma {:induction false} SameSym(p: int, a: int, b: int)
    requires p > 0 && Same(p, a, b)
    ensures Same(p, b, a)
  {
    var k := Quotient(p, a - b);
    SameFrom(p, b, a, -k);
  }

  lemma {:induction false} SameTrans(p: int, a: int, b: int, c: int)
    requires p > 0 && Same(p, a, b) && Same(p, b, c)
    ensures Same(p, a, c)
  {
    var k := Quotient(p, a - b);
    var l := Quotient(p, b - c);
    SameFrom(p, a, c, k + l);
  }

  lemma {:induction false} SameAdd(p: int, a: int, b: int, c: int, d: int)
    requires p > 0 && Same(p, a, b) && Same(p, c, d)
    ensures Same(p, a + c, b + d)
  {
    var k := Quotient(p, a - b);
    var l := Quotient(p, c - d);
    SameFrom(p, a + c, b + d, k + l);
  }

  lemma {:induction false} SameMul(p: int, a: int, b: int, c: int, d: int)
    requires p > 0 && Same(p, a, b) && Same(p, c, d)
    ensures Same(p, a * c, b * d)
  {
    var k := Quotient(p, a - b);
    var l := Quotient(p, c - d);
    assert a * c - b * d == (a - b) * c + b * (c - d);
    assert (k * p) * c + b * (l * p) == (k * c + b * l) * p;
    SameFrom(p, a * c, b * d, k * c + b * l);
  }

  lemma {:induction false} SameSub(p: int, a: int, b: int, c: int, d: int)
    requires p > 0 && Same(p, a, b) && Same(p, c, d)
    ensures Same(p, a - c, b - d)
  {
    var k := Quotient(p, a - b);
    var l := Quotient(p, c - d);
    SameFrom(p, a - c, b - d, k - l);
  }

  lemma {:induction false} SameScale(p: int, k: int, a: int, b: int)
    requires p > 0 && Same(p, a, b)
    ensures Same(p, k * a, k * b)
  {
    SameRefl(p, k);
    SameMul(p, k, k, a, b);
  }

  lemma {:induction false} SameMod(p: int, a: int)
    requires p > 0
    ensures Same(p, a % p, a)
  {
    SameFrom(p, a % p, a, -(a / p));
  }

  lemma {:induction false} SameCanonical(p: int, a: int, b: int)
    requires p > 0 && Same(p, a, b) && 0 <= a < p && 0 <= b < p
    ensures a == b
  {
    var k := Quotient(p, a - b);
    MultipleBounds(p, k);
  }

  // ---------------------------------------------------------------- Euclid

  lemma {:induction false} SmallerMultiple(p: int, b: int, n: int, r: int, k: int)
    requires n > 0 && r == p % n && n * b == k * p
    ensures r * b == (b - (p / n) * k) * p
  {
    var q := p / n;
    assert p == q * n + r;
    assert (q * n) * b == q * (n * b);
    assert q * (k * p) == (q * k) * p;
    assert r * b == p * b - (q * n) * b;
  }

  /** No multiple `n * b` with `0 < n < p` vanishes: the remainder of `p` by `n` would be a smaller such `n`. */
  lemma {:induction false} NoAnnihilator(p: int, b: int, n: int)
    requires Prime(p) && b % p != 0 && 1 <= n < p
    ensures (n * b) % p != 0
    decreases n
  {
    if (n * b) % p == 0 && n > 1 {
      var r := p % n;
      assert r != 0;
      var k := Quotient(p, n * b);
      SmallerMultiple(p, b, n, r, k);
      MultipleVanishes(p, b - (p / n) * k);
      NoAnnihilator(p, b, r);
    }
  }

  lemma {:induction false} Euclid(p: int, a: int, b: int)
    requires Prime(p) && (a * b) % p == 0
    ensures a % p == 0 || b % p == 0
  {
    if a % p != 0 && b % p != 0 {
      SameMod(p, a);
      SameRefl(p, b);
      SameMul(p, a % p, a, b, b);
      SameVanishes(p, (a % p) * b, a * b);
      NoAnnihilator(p, b, a % p);
      assert false;
    }
  }

  lemma {:induction false} SameVanishes(p: int, a: int, b: int)
    requires p > 0 && Same(p, a, b)
    ensures a % p == 0 <==> b % p == 0
  {
    if a % p == 0 {
      var k := Quotient(p, a - b);
      var l := Quotient(p, a);
      assert b == (l - k) * p;
      MultipleVanishes(p, l - k);
    }
    if b % p == 0 {
      var k := Quotient(p, a - b);
      var l := Quotient(p, b);
      assert a == (l + k) * p;
      MultipleVanishes(p, l + k);
    }
  }

  /** A non-zero factor cancels. */
  lemma {:induction false} SameCancel(p: int, a: int, b: int, c: int)
    requires Prime(p) && c % p != 0 && Same(p, a * c, b * c)
    ensures Same(p, a, b)
  {
    assert a * c - b * c == (a - b) * c;
    Euclid(p, a - b, c);
  }

  lemma {:induction false} ProductNonZero(p: int, a: int, b: int)
    requires Prime(p) && a % p != 0 && b % p != 0
    ensures (a * b) % p != 0
  {
    if (a * b) % p == 0 { Euclid(p, a, b); }
  }

  // ---------------------------------------------------------------- Fermat

  function Pow(x: int, e: nat): int {
    if e == 0 then 1 else x * Pow(x, e - 1)
  }

  /** Python's three-argument `pow`. */
  function PowMod(x: int, e: nat, m: int): (r: int)
    requires m > 0
    ensures 0 <= r < m
  {
    Pow(x, e) % m
  }

  lemma {:induction false} PowAdd(x: int, a: nat, b: nat)
    ensures Pow(x, a + b) == Pow(x, a) * Pow(x, b)
  {
    if a == 0 {
    } else {
      PowAdd(x, a - 1, b);
      assert Pow(x, a + b) == x * (Pow(x, a - 1) * Pow(x, b));
    }
  }

  lemma {:induction false} PowSquare(x: int, e: nat)
    ensures Pow(x * x, e) == Pow(x, 2 * e)
  {
    if e == 0 {
    } else {
      PowSquare(x, e - 1);
      assert Pow(x, 2 * e) == x * (x * Pow(x, 2 * e - 2));
    }
  }

  lemma {:induction false} SamePow(p: int, a: int, b: int, e: nat)
    requires p > 0 && Same(p, a, b)
    ensures Same(p, Pow(a, e), Pow(b, e))
  {
    if e == 0 {
      SameRefl(p, 1);
    } else {
      SamePow(p, a, b, e - 1);
      SameMul(p, a, b, Pow(a, e - 1), Pow(b, e - 1));
    }
  }

  ghost function Pick<T>(s: set<T>): T
    requires s != {}
  {
    var x :| x in s; x
  }

  ghost function Product(s: set<int>): int {
    if s == {} then 1 else var x := Pick(s); x * Product(s - {x})
  }

  lemma {:induction false} ProductTake(s: set<int>, x: int)
    requires x in s
    ensures Product(s) == x * Product(s - {x})
    decreases s
  {
    var y := Pick(s);
    if y != x {
      ProductTake(s - {y}, x);
      ProductTake(s - {x}, y);
      assert s - {y} - {x} == s - {x} - {y};
      assert y * (x * Product(s - {x} - {y})) == x * (y * Product(s - {x} - {y}));
    }
  }

  function Factorial(n: nat): int {
    if n == 0 then 1 else n * Factorial(n - 1)
  }

  ghost function Range(n: nat): (r: set<int>)
    ensures forall k :: k in r <==> 1 <= k <= n
  {
    if n == 0 then {} else Range(n - 1) + {n}
  }

  /** The residues of `a, 2a, ..., na`. */
  ghost function Image(p: int, a: int, n: nat): set<int>
    requires p > 0
  {
    if n == 0 then {} else Image(p, a, n - 1) + {(a * n) % p}
  }

  lemma {:induction false} RangeProduct(n: nat)
    ensures Product(Range(n)) == Factorial(n) && |Range(n)| == n
  {
    if n == 0 {
      assert Range(0) == {};
    } else {
      RangeProduct(n - 1);
      assert Range(n) - {n} == Range(n - 1);
      ProductTake(Range(n), n);
    }
  }

  /** Two multiples of `a` with different multipliers below `p` have different residues. */
  lemma {:induction false} Injective(p: int, a: int, k: int, n: int)
    requires Prime(p) && a % p != 0 && 1 <= k < p && 1 <= n < p && k != n
    ensures (a * k) % p != (a * n) % p
  {
    if (a * k) % p == (a * n) % p {
      SameMod(p, a * k);
      SameMod(p, a * n);
      SameSym(p, (a * k) % p, a * k);
      SameTrans(p, a * k, (a * n) % p, a * n);
      assert a * k == k * a && a * n == n * a;
      SameCancel(p, k, n, a);
      SameCanonical(p, k, n);
      assert false;
    }
  }

  lemma {:induction false} ImageFresh(p: int, a: int, m: nat, n: int)
    requires Prime(p) && a % p != 0 && m < n < p
    ensures (a * n) % p !in Image(p, a, m)
  {
    if m == 0 {
    } else {
      ImageFresh(p, a, m - 1, n);
      Injective(p, a, m, n);
    }
  }

  lemma {:induction false} ImageSize(p: int, a: int, n: nat)
    requires Prime(p) && a % p != 0 && n < p
    ensures |Image(p, a, n)| == n
    ensures Image(p, a, n) <= Range(p - 1)
  {
    if n == 0 {
    } else {
      ImageSize(p, a, n - 1);
      ImageFresh(p, a, n - 1, n);
      NonZeroInRange(p, a, n);
    }
  }

  lemma {:induction false} NonZeroInRange(p: int, a: int, n: int)
    requires Prime(p) && a % p != 0 && 0 < n < p
    ensures (a * n) % p in Range(p - 1)
  {
    SmallMod(p, n);
    ProductNonZero(p, a, n);
  }

  lemma {:induction false} SmallMod(p: int, n: int)
    requires 0 <= n < p
    ensures n % p == n
  {
  }

  lemma {:induction false} ImageProduct(p: int, a: int, n: nat)
    requires Prime(p) && a % p != 0 && n < p
    ensures Same(p, Product(Image(p, a, n)), Pow(a, n) * Factorial(n))
  {
    if n == 0 {
      SameRefl(p, 1);
    } else {
      ImageProduct(p, a, n - 1);
      ImageFresh(p, a, n - 1, n);
      var last, rest := (a * n) % p, Image(p, a, n - 1);
      assert Image(p, a, n) - {last} == rest;
      ProductTake(Image(p, a, n), last);
      SameMod(p, a * n);
      SameMul(p, last, a * n, Product(rest), Pow(a, n - 1) * Factorial(n - 1));
      Regroup(a, n, Pow(a, n - 1), Factorial(n - 1));
    }
  }

  lemma {:induction false} Regroup(a: int, b: int, c: int, d: int)
    ensures (a * b) * (c * d) == (a * c) * (b * d)
  {
  }

  lemma {:induction false} FactorialNonZero(p: int, n: nat)
    requires Prime(p) && n < p
    ensures Factorial(n) % p != 0
  {
    if n == 0 {
      SmallMod(p, 1);
    } else {
      FactorialNonZero(p, n - 1);
      SmallMod(p, n);
      ProductNonZero(p, n, Factorial(n - 1));
    }
  }

  lemma {:induction false} SubsetOfSameSize<T>(a: set<T>, b: set<T>)
    requires a <= b && |a| == |b|
    ensures a == b
  {
    assert |b - a| == 0;
  }

  /** Fermat's little theorem. */
  lemma {:induction false} Fermat(p: int, a: int)
    requires Prime(p) && a % p != 0
    ensures Same(p, Pow(a, p - 1), 1)
  {
    ImageProduct(p, a, p - 1);
    ImageSize(p, a, p - 1);
    RangeProduct(p - 1);
    SubsetOfSameSize(Image(p, a, p - 1), Range(p - 1));
    var f := Factorial(p - 1);
    assert Same(p, f, Pow(a, p - 1) * f);
    SameSym(p, f, Pow(a, p - 1) * f);
    FactorialNonZero(p, p - 1);
    SameCancel(p, Pow(a, p - 1), 1, f);
  }

  // ---------------------------------------------------------------- inverses

  function Inverse(p: int, z: int): int
    requires p > 2
  {
    PowMod(z, p - 2, p)
  }

  lemma {:induction false} InverseIs(p: int, z: int)
    requires Prime(p) && p > 2 && z % p != 0
    ensures Same(p, z * Inverse(p, z), 1)
  {
    Fermat(p, z);
    SameMod(p, Pow(z, p - 2));
    SameRefl(p, z);
    SameMul(p, z, z, Inverse(p, z), Pow(z, p - 2));
    SameTrans(p, z * Inverse(p, z), Pow(z, p - 1), 1);
  }

  lemma {:induction false} DivideIs(p: int, a: int, z: int)
    requires Prime(p) && p > 2 && z % p != 0
    ensures Same(p, (a * Inverse(p, z) % p) * z, a)
  {
    var i := Inverse(p, z);
    InverseIs(p, z);
    SameMod(p, a * i);
    SameRefl(p, z);
    SameMul(p, a * i % p, a * i, z, z);
    SameRefl(p, a);
    SameMul(p, a, a, z * i, 1);
    assert a * i * z == a * (z * i);
    SameTrans(p, (a * i % p) * z, a * (z * i), a);
  }

  /** `x = a / z` exactly when `x` is canonical and `x * z = a`. */
  lemma {:induction false} QuotientExactly(p: int, a: int, z: int, x: int)
    requires Prime(p) && p > 2 && z % p != 0
    ensures x == a * Inverse(p, z) % p <==> 0 <= x < p && Same(p, x * z, a)
  {
    var q := a * Inverse(p, z) % p;
    DivideIs(p, a, z);
    if 0 <= x < p && Same(p, x * z, a) {
      SameSym(p, q * z, a);
      SameTrans(p, x * z, a, q * z);
      SameCancel(p, x, q, z);
      SameCanonical(p, x, q);
    }
  }
}
