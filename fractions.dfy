/** Exact rationals as Python's `fractions.Fraction` keeps them: a numerator over a positive
    denominator in lowest terms. The converter only ever prints `numerator` and
    `denominator` of such values, so the lowest-terms form is part of its output. */
module Fractions {

  datatype Rational = Rational(num: int, den: int)

  /** A rational with a positive denominator, the only kind the converter builds. */
  type Frac = r: Rational | r.den > 0 witness Rational(0, 1)

  /** Equality of fractions as Python compares them: by value. */
  predicate SameValue(a: Rational, b: Rational) {
    a.num * b.den == b.num * a.den
  }

  function Abs(x: int): nat {
    if x < 0 then -x else x
  }

  /** `d` divides `n` (for a positive `d`). */
  predicate Divides(d: nat, n: int) {
    d > 0 && n % d == 0
  }

  /** Euclid's algorithm; `Gcd(0, 0) == 0`. */
  function Gcd(a: nat, b: nat): (g: nat)
    ensures g == 0 <==> a == 0 && b == 0
    ensures g <= a || b != 0
    decreases b
  {
    if b == 0 then a else Gcd(b, a % b)
  }

  /** Python's reduced form: the value is unchanged, the denominator positive and the two
      parts without a common factor. */
  predicate Canonical(r: Rational) {
    r.den > 0 && Gcd(Abs(r.num), r.den) == 1
  }

  /** The value `n / d` as a `Fraction(n, d)` (for a positive `d`). */
  function Reduce(n: int, d: int): (r: Frac)
    requires d > 0
    ensures Canonical(r)
    ensures r.num * d == n * r.den
  {
    var g := Gcd(Abs(n), d);
    LowestTerms(n, d);
    Rational(n / g, d / g)
  }

  lemma LowestTerms(n: int, d: int)
    requires d > 0
    ensures Gcd(Abs(n), d) > 0
    ensures Canonical(Rational(n / Gcd(Abs(n), d), d / Gcd(Abs(n), d)))
    ensures (n / Gcd(Abs(n), d)) * d == n * (d / Gcd(Abs(n), d))
  {
    var g := Gcd(Abs(n), d);
    GcdDividesBoth(Abs(n), d);
    ReducedIsCoprime(Abs(n), d);
    ExactQuotient(g, d);
    AbsOfQuotient(n, g);
    QuotientCrossProduct(n, d, g);
  }

  lemma AbsOfQuotient(n: int, g: nat)
    requires Divides(g, Abs(n))
    ensures Abs(n / g) == Abs(n) / g
  {
    var k := Abs(n) / g;
    ExactQuotient(g, Abs(n));
    if n < 0 {
      assert n == g * (-k);
      ModOfMultiple(g, -k);
    } else {
      ModOfMultiple(g, k);
    }
  }

  function FromInt(n: int): (r: Frac)
    ensures Canonical(r) && r.num == n && r.den == 1
  {
    assert Gcd(Abs(n), 1) == Gcd(1, 0);
    Rational(n, 1)
  }

  /** `a + b` on fractions. */
  function Add(a: Frac, b: Frac): (r: Frac)
    ensures Canonical(r)
    ensures r.num * (a.den * b.den) == (a.num * b.den + b.num * a.den) * r.den
  {
    Reduce(a.num * b.den + b.num * a.den, a.den * b.den)
  }

  /** `a > 1` for a fraction with positive denominator. */
  predicate GreaterThanOne(a: Frac) {
    a.num > a.den
  }

  lemma MulSign(d: nat, m: int)
    requires d > 0
    ensures m >= 1 ==> d * m >= d
    ensures m <= -1 ==> d * m + d <= 0
  {
    if m >= 1 {
      var m' := m - 1;
      assert d * m == d * m' + d;
    } else if m <= -1 {
      var m' := m + 1;
      assert d * m == d * m' - d;
    }
  }

  lemma ModOfMultiple(d: nat, k: int)
    requires d > 0
    ensures (d * k) % d == 0 && (d * k) / d == k
  {
    var n := d * k;
    var q := n / d;
    var r := n % d;
    assert n == d * q + r && 0 <= r < d;
    assert d * (k - q) == r;
    MulSign(d, k - q);
  }

  lemma ExactQuotient(d: nat, n: int)
    requires Divides(d, n)
    ensures n == d * (n / d)
  {
  }

  lemma {:induction false} GcdDividesBoth(a: nat, b: nat)
    requires a > 0 || b > 0
    ensures Divides(Gcd(a, b), a) && Divides(Gcd(a, b), b)
    decreases b
  {
    if b != 0 {
      GcdDividesBoth(b, a % b);
      var g := Gcd(b, a % b);
      var kb := b / g;
      var kr := (a % b) / g;
      assert b == g * kb;
      assert a % b == g * kr;
      assert a == g * ((a / b) * kb + kr) by {
        assert a == (a / b) * b + a % b;
        assert (a / b) * b == (a / b) * (g * kb) == g * ((a / b) * kb);
      }
      ModOfMultiple(g, (a / b) * kb + kr);
    }
  }

  lemma {:induction false} CommonDivisorDividesGcd(a: nat, b: nat, d: nat)
    requires Divides(d, a) && Divides(d, b)
    ensures Gcd(a, b) % d == 0
    decreases b
  {
    if b != 0 {
      var ka := a / d;
      var kb := b / d;
      assert a == d * ka && b == d * kb;
      var q := a / b;
      assert a % b == d * (ka - q * kb) by {
        assert a % b == a - q * b;
        assert q * b == q * (d * kb) == d * (q * kb);
      }
      ModOfMultiple(d, ka - q * kb);
      CommonDivisorDividesGcd(b, a % b, d);
    }
  }

  /** Dividing both parts by their gcd leaves no common factor. */
  lemma ReducedIsCoprime(a: nat, b: nat)
    requires b > 0
    ensures Gcd(a, b) > 0 && Gcd(a / Gcd(a, b), b / Gcd(a, b)) == 1
  {
    var g := Gcd(a, b);
    GcdDividesBoth(a, b);
    var a', b' := a / g, b / g;
    ExactQuotient(g, a);
    ExactQuotient(g, b);
    var h := Gcd(a', b');
    GcdDividesBoth(a', b');
    ExactQuotient(h, a');
    ExactQuotient(h, b');
    ScaledDivisor(g, h, a');
    ScaledDivisor(g, h, b');
    CommonDivisorDividesGcd(a, b, g * h);
    NoLargerDivisor(g, h);
  }

  /** If `h` divides `x` then `g * h` divides `g * x`. */
  lemma ScaledDivisor(g: nat, h: nat, x: nat)
    requires g > 0 && Divides(h, x)
    ensures Divides(g * h, g * x)
  {
    ExactQuotient(h, x);
    var k := x / h;
    assert g * x == (g * h) * k by {
      assert g * x == g * (h * k);
    }
    ModOfMultiple(g * h, k);
  }

  lemma NoLargerDivisor(g: nat, h: nat)
    requires g > 0 && h > 0 && g % (g * h) == 0
    ensures h == 1
  {
    if h > 1 {
      MulSign(g, h - 1);
      assert g * h == g * (h - 1) + g;
      SmallMod(g, g * h);
    }
  }

  lemma SmallMod(x: nat, m: nat)
    requires x < m
    ensures x % m == x
  {
    var q := x / m;
    assert x == m * q + x % m;
    MulSign(m, q);
  }

  lemma QuotientCrossProduct(n: int, d: int, g: nat)
    requires d > 0 && Divides(g, Abs(n)) && Divides(g, d)
    ensures (n / g) * d == n * (d / g)
  {
    var kn := Abs(n) / g;
    var kd := d / g;
    assert d == g * kd;
    if n >= 0 {
      assert n == g * kn;
      ModOfMultiple(g, kn);
      assert (n / g) * d == kn * (g * kd) == (g * kn) * kd;
    } else {
      assert -n == g * kn;
      assert n == g * (-kn);
      ModOfMultiple(g, -kn);
      assert (n / g) * d == (-kn) * (g * kd) == (g * (-kn)) * kd;
    }
  }

  /** Value equality of fractions is transitive (through a positive denominator). */
  lemma SameValueTransitive(a: Rational, b: Rational, c: Rational)
    requires b.den > 0
    requires SameValue(a, b) && SameValue(b, c)
    ensures SameValue(a, c)
  {
    assert (a.num * c.den) * b.den == (c.num * a.den) * b.den by {
      calc {
        (a.num * c.den) * b.den;
        == (a.num * b.den) * c.den;
        == (b.num * a.den) * c.den;
        == (b.num * c.den) * a.den;
        == (c.num * b.den) * a.den;
        == (c.num * a.den) * b.den;
      }
    }
    CancelPositive(a.num * c.den, c.num * a.den, b.den);
  }

  lemma CancelPositive(x: int, y: int, d: int)
    requires d > 0 && x * d == y * d
    ensures x == y
  {
    if x < y {
      assert (y - x) * d == y * d - x * d;
      MulSign(d, y - x);
    } else if x > y {
      assert (x - y) * d == x * d - y * d;
      MulSign(d, x - y);
    }
  }

  /** `a + b` without reducing: the textbook cross-multiplied sum. */
  function RawAdd(a: Frac, b: Frac): (r: Frac)
    ensures r.den == a.den * b.den
  {
    MulSign(a.den, b.den);
    Rational(a.num * b.den + b.num * a.den, a.den * b.den)
  }

  /** Adding equal values to equal values gives equal values, whether or not the sum is
      reduced. */
  lemma AddRespectsValue(a: Frac, a': Frac, f: Frac)
    requires SameValue(a, a')
    ensures SameValue(Add(a, f), RawAdd(a', f))
  {
    var r := Add(a, f);
    var raw := RawAdd(a, f);
    assert SameValue(r, raw);
    var raw' := RawAdd(a', f);
    CrossAdd(a.num, a.den, a'.num, a'.den, f.num, f.den);
    SameValueTransitive(r, raw, raw');
  }

  /** The cross products of `a/b + f/g` and `a'/b' + f/g` agree when those of `a/b` and
      `a'/b'` do. */
  lemma CrossAdd(an: int, ad: int, an': int, ad': int, fn: int, fd: int)
    requires an * ad' == an' * ad
    ensures (an * fd + fn * ad) * (ad' * fd) == (an' * fd + fn * ad') * (ad * fd)
  {
    Distribute(an * fd, fn * ad, ad' * fd);
    Distribute(an' * fd, fn * ad', ad * fd);
    Regroup(an, fd, ad', fd);
    Regroup(an', fd, ad, fd);
    Regroup(fn, ad', ad, fd);
    assert (an * ad') * (fd * fd) == (an' * ad) * (fd * fd);
  }

  lemma Distribute(x: int, y: int, z: int)
    ensures (x + y) * z == x * z + y * z
  {
  }

  lemma Regroup(w: int, x: int, y: int, z: int)
    ensures (w * x) * (y * z) == (w * y) * (x * z)
  {
  }
}
