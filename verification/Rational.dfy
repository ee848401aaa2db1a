/** Exact numbers: the reduced fractions of math/big, and the JSON number literals they come from. */
module Rational {
  import opened Arithmetic

  // ---------- greatest common divisor ----------

  function Gcd(a: nat, b: nat): nat
    decreases b
  {
    if b == 0 then a else Gcd(b, a % b)
  }

  ghost predicate Divides(d: int, n: int) {
    exists k: int :: n == d * k
  }

  lemma DivideBy(d: int, n: int, k: int)
    requires n == d * k
    ensures Divides(d, n)
  {
  }

  lemma DividesCombination(d: int, a: int, b: int, x: int, y: int)
    requires Divides(d, a) && Divides(d, b)
    ensures Divides(d, a * x + b * y)
  {
    var k :| a == d * k;
    var l :| b == d * l;
    assert a * x + b * y == d * (k * x + l * y) by {
      assert (d * k) * x == d * (k * x);
      assert (d * l) * y == d * (l * y);
      assert d * (k * x) + d * (l * y) == d * (k * x + l * y);
    }
    DivideBy(d, a * x + b * y, k * x + l * y);
  }

  /** The divisor comes with its Bezout coefficients. */
  lemma {:induction false} Bezout(a: nat, b: nat) returns (x: int, y: int)
    ensures a * x + b * y == Gcd(a, b)
    ensures Divides(Gcd(a, b), a) && Divides(Gcd(a, b), b)
    decreases b
  {
    var g := Gcd(a, b);
    if b == 0 {
      x, y := 1, 0;
      DivideBy(g, a, 1);
      DivideBy(g, b, 0);
    } else {
      var q, r := a / b, a % b;
      var u, v := Bezout(b, r);
      assert a == b * q + r * 1;
      DividesCombination(g, b, r, q, 1);
      x, y := v, u - q * v;
      assert b * u + r * v == g;
      assert r * v == (a - b * q) * v == a * v - b * (q * v);
      assert b * (u - q * v) == b * u - b * (q * v);
    }
  }

  function Abs(n: int): nat {
    if n < 0 then -n else n
  }

  lemma GcdIsPositive(n: int, d: nat)
    requires d > 0
    ensures Gcd(Abs(n), d) > 0
  {
    var x, y := Bezout(Abs(n), d);
    if Gcd(Abs(n), d) == 0 {
      var k :| d == 0 * k;
    }
  }

  // ---------- reduced fractions ----------

  datatype Ratio = Ratio(num: int, den: int)

  predicate Reduced(r: Ratio) {
    r.den > 0 && Gcd(Abs(r.num), r.den) == 1
  }

  /** A value of big.Rat: always in lowest terms. */
  type Rational = r: Ratio | Reduced(r) witness Ratio(0, 1)

  lemma Factor(g: int, a: int, b: int, x: int, y: int)
    ensures (g * a) * x + (g * b) * y == g * (a * x + b * y)
  {
    assert (g * a) * x == g * (a * x);
    assert (g * b) * y == g * (b * y);
    assert g * (a * x) + g * (b * y) == g * (a * x + b * y);
  }

  lemma AbsOfProduct(g: int, a: int)
    requires g > 0
    ensures Abs(g * a) == g * Abs(a)
  {
    ProductSign(g, a);
    if a < 0 {
      assert g * -a == -(g * a);
    }
  }

  /** n = g * a and d = g * b leave coprime a and b. */
  lemma CofactorsAreCoprime(n: int, d: nat, a: int, b: int)
    requires d > 0
    requires n == Gcd(Abs(n), d) * a && d == Gcd(Abs(n), d) * b
    ensures b > 0 && Reduced(Ratio(a, b))
  {
    var g := Gcd(Abs(n), d);
    GcdIsPositive(n, d);
    ProductSign(g, b);
    AbsOfProduct(g, a);
    var x, y := Bezout(Abs(n), d);
    Factor(g, Abs(a), b, x, y);
    CancelFactor(g, Abs(a) * x + b * y, 1);
    CombinationOfOne(Abs(a), b, x, y);
  }

  lemma CombinationOfOne(a: nat, b: nat, x: int, y: int)
    requires a * x + b * y == 1
    ensures Gcd(a, b) == 1
  {
    var u, v := Bezout(a, b);
    DividesCombination(Gcd(a, b), a, b, x, y);
    DivisorOfOne(Gcd(a, b));
  }

  lemma DivisorOfOne(h: nat)
    requires Divides(h, 1)
    ensures h == 1
  {
    var k :| 1 == h * k;
    assert h != 0;
    ProductSign(h, k);
  }

  lemma ExactQuotient(g: nat, n: int)
    requires g > 0 && Divides(g, n)
    ensures n == g * (n / g)
  {
    var k :| n == g * k;
    assert n / g == k by {
      assert n % g == 0 by { RemainderOfMultiple(g, k); }
      assert n == g * (n / g) + 0;
      CancelFactor(g, n / g, k);
    }
  }

  lemma RemainderOfMultiple(g: int, k: int)
    requires g > 0
    ensures (g * k) % g == 0
  {
    var n := g * k;
    var q, r := n / g, n % g;
    assert n == g * q + r && 0 <= r < g;
    assert g * (k - q) == r;
    ProductSign(g, k - q);
  }

  lemma QuotientsByGcd(n: int, d: nat)
    requires d > 0
    ensures Gcd(Abs(n), d) > 0
    ensures n == Gcd(Abs(n), d) * (n / Gcd(Abs(n), d)) && d == Gcd(Abs(n), d) * (d / Gcd(Abs(n), d))
  {
    var g := Gcd(Abs(n), d);
    GcdIsPositive(n, d);
    var x, y := Bezout(Abs(n), d);
    DividesNegation(g, n);
    ExactQuotient(g, n);
    ExactQuotient(g, d);
  }

  lemma CrossProduct(g: int, a: int, b: int, n: int, d: int)
    requires n == g * a && d == g * b
    ensures n * b == a * d
  {
    assert (g * a) * b == a * (g * b);
  }

  /** The fraction n/d in lowest terms. */
  function Reduce(n: int, d: int): (r: Rational)
    requires d > 0
    ensures n * r.den == r.num * d
  {
    var g := Gcd(Abs(n), d);
    QuotientsByGcd(n, d);
    CofactorsAreCoprime(n, d, n / g, d / g);
    CrossProduct(g, n / g, d / g, n, d);
    Ratio(n / g, d / g)
  }

  lemma DividesNegation(g: int, n: int)
    requires Divides(g, Abs(n))
    ensures Divides(g, n)
  {
    var k :| Abs(n) == g * k;
    if n < 0 { DivideBy(g, n, -k); }
  }

  lemma DenominatorDivides(a: int, b: int, c: int, d: int)
    requires b > 0 && Gcd(Abs(a), b) == 1
    requires a * d == c * b
    ensures Divides(b, d)
  {
    var x, y := Bezout(Abs(a), b);
    var s := if a < 0 then -x else x;
    assert a * s + b * y == 1;
    Factor(d, a, b, s, y);
    assert (d * a) * s == (b * c) * s;
    Factor(b, c, d, s, y);
    assert (d * b) * y == (b * d) * y;
    DivideBy(b, d, c * s + d * y);
  }

  lemma DivisorIsSmaller(d: int, n: int)
    requires d > 0 && n > 0 && Divides(d, n)
    ensures d <= n
  {
    var k :| n == d * k;
    ProductSign(d, k);
  }

  /** A rational number has one reduced fraction: equal value means equal fields. */
  lemma ReducedFormIsUnique(p: Rational, q: Rational)
    requires p.num * q.den == q.num * p.den
    ensures p == q
  {
    DenominatorDivides(p.num, p.den, q.num, q.den);
    DenominatorDivides(q.num, q.den, p.num, p.den);
    DivisorIsSmaller(p.den, q.den);
    DivisorIsSmaller(q.den, p.den);
    CancelFactor(p.den, p.num, q.num);
  }

  ghost function RealValue(r: Rational): real {
    r.num as real / r.den as real
  }

  lemma IntegerProduct(a: int, b: int)
    ensures (a * b) as real == a as real * b as real
  {
  }

  lemma EqualQuotients(a: real, b: real, c: real, d: real)
    requires b > 0.0 && d > 0.0
    ensures a / b == c / d <==> a * d == c * b
  {
    if a / b == c / d {
      assert a == (a / b) * b && c == (c / d) * d;
      assert a * d == ((c / d) * b) * d == ((c / d) * d) * b;
    }
    if a * d == c * b {
      assert (a / b) * (b * d) == a * d;
      assert (c / d) * (b * d) == c * b;
    }
  }

  /** Reduced fractions are equal exactly when they are the same real number. */
  lemma RationalsAreTheirValues(p: Rational, q: Rational)
    ensures p == q <==> RealValue(p) == RealValue(q)
  {
    EqualQuotients(p.num as real, p.den as real, q.num as real, q.den as real);
    IntegerProduct(p.num, q.den);
    IntegerProduct(q.num, p.den);
    if RealValue(p) == RealValue(q) {
      ReducedFormIsUnique(p, q);
    }
  }

  lemma ReduceKeepsValue(n: int, d: int)
    requires d > 0
    ensures RealValue(Reduce(n, d)) == n as real / d as real
  {
    var r := Reduce(n, d);
    EqualQuotients(r.num as real, r.den as real, n as real, d as real);
    IntegerProduct(n, r.den);
    IntegerProduct(r.num, d);
  }
}
