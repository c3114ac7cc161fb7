/**
 Divisibility, greatest common divisors and modular congruence, as far as the
 factorisation and key-exchange models need them.
 */
module Arithmetic {

  /** `d` divides `a`: some multiple of `d` is `a`. */
  ghost predicate Divides(d: int, a: int) {
    exists k: int :: Multiple(k, d, a)
  }

  ghost predicate Multiple(k: int, d: int, a: int) {
    k * d == a
  }

  lemma DividesBy(k: int, d: int, a: int)
    requires a == k * d
    ensures Divides(d, a)
  {
    assert Multiple(k, d, a);
  }

  lemma DividesCombination(d: int, a: int, b: int, u: int, v: int)
    requires Divides(d, a) && Divides(d, b)
    ensures Divides(d, u * a + v * b)
  {
    var k :| Multiple(k, d, a);
    var l :| Multiple(l, d, b);
    assert u * a + v * b == (u * k + v * l) * d by {
      assert u * (k * d) == (u * k) * d;
      assert v * (l * d) == (v * l) * d;
    }
    DividesBy(u * k + v * l, d, u * a + v * b);
  }

  lemma DivisorBound(d: int, a: int)
    requires Divides(d, a) && a > 0
    ensures d <= a && d != 0
  {
    var k :| Multiple(k, d, a);
    if d > 0 {
      PositiveFactor(k, d);
    }
  }

  lemma PositiveFactor(k: int, d: int)
    requires d > 0 && k * d > 0
    ensures d <= k * d
  {
    assert k >= 1;
    assert (k - 1) * d >= 0;
  }

  /** `g` divides `a` and `b`, and everything dividing both divides `g`. */
  ghost predicate IsGcd(g: nat, a: nat, b: nat) {
    && Divides(g, a)
    && Divides(g, b)
    && forall d: int :: Divides(d, a) && Divides(d, b) ==> Divides(d, g)
  }

  /** The greatest common divisor, as `math.gcd` defines it also for a zero argument. */
  ghost function Gcd(a: nat, b: nat): (g: nat) {
    GcdExists(a, b);
    var g: nat :| IsGcd(g, a, b);
    g
  }

  lemma GcdExists(a: nat, b: nat)
    ensures exists g: nat :: IsGcd(g, a, b)
  {
    var _, _, _ := Bezout(a, b);
  }

  /** Euclid's algorithm: some common divisor is an integer combination of `a` and `b`. */
  lemma {:induction false} Bezout(a: nat, b: nat) returns (g: nat, u: int, v: int)
    ensures u * a + v * b == g && IsGcd(g, a, b)
    decreases b
  {
    if b == 0 {
      g, u, v := a, 1, 0;
      DividesBy(1, a, a);
      DividesBy(0, a, 0);
    } else {
      var q := a / b;
      assert a == b * q + a % b;
      var u', v';
      g, u', v' := Bezout(b, a % b);
      u, v := v', u' - v' * q;
      calc {
        u * a + v * b;
        { assert (u' - v' * q) * b == u' * b - v' * (q * b); }
        v' * a + u' * b - v' * (q * b);
        { assert v' * a - v' * (q * b) == v' * (a - q * b); }
        u' * b + v' * (a % b);
        g;
      }
      CommonDivisors(g, a, b, q, u, v);
    }
  }

  lemma CommonDivisors(g: nat, a: nat, b: nat, q: int, u: int, v: int)
    requires Divides(g, b) && Divides(g, a - b * q) && u * a + v * b == g
    ensures IsGcd(g, a, b)
  {
    DividesCombination(g, b, a - b * q, q, 1);
    assert q * b + 1 * (a - b * q) == a;
    forall d: int | Divides(d, a) && Divides(d, b)
      ensures Divides(d, g)
    {
      DividesCombination(d, a, b, u, v);
    }
  }

  lemma GcdUnique(g: nat, a: nat, b: nat)
    requires b > 0 && IsGcd(g, a, b)
    ensures g == Gcd(a, b)
  {
    var h := Gcd(a, b);
    assert IsGcd(h, a, b);
    DivisorBound(g, b);
    DivisorBound(h, b);
    DivisorBound(g, h);
    DivisorBound(h, g);
  }

  /** The greatest common divisor is an integer combination of its arguments. */
  lemma GcdBezout(a: nat, b: nat) returns (u: int, v: int)
    requires b > 0
    ensures u * a + v * b == Gcd(a, b)
    ensures Divides(Gcd(a, b), a) && Divides(Gcd(a, b), b)
  {
    var g;
    g, u, v := Bezout(a, b);
    GcdUnique(g, a, b);
  }

  lemma GcdPositive(a: nat, b: nat)
    requires b > 0
    ensures 1 <= Gcd(a, b) <= b
  {
    var _, _ := GcdBezout(a, b);
    DivisorBound(Gcd(a, b), b);
  }

  /** Anything dividing both arguments divides the greatest common divisor. */
  lemma GcdUniversal(d: int, a: nat, b: nat)
    requires b > 0 && Divides(d, a) && Divides(d, b)
    ensures Divides(d, Gcd(a, b))
  {
    var u, v := GcdBezout(a, b);
    DividesCombination(d, a, b, u, v);
  }

  lemma GcdIsWhole(a: nat, n: nat)
    requires n > 0
    ensures Gcd(a, n) == n <==> Divides(n, a)
  {
    var _, _ := GcdBezout(a, n);
    if Divides(n, a) {
      DividesBy(1, n, n);
      GcdUniversal(n, a, n);
      GcdPositive(a, n);
      DivisorBound(n, Gcd(a, n));
    }
  }

  ghost predicate Coprime(a: nat, n: nat) {
    Gcd(a, n) == 1
  }

  lemma CoprimeFromCombination(a: nat, n: nat, u: int, v: int)
    requires n > 0 && u * a + v * n == 1
    ensures Coprime(a, n)
  {
    var _, _ := GcdBezout(a, n);
    var g := Gcd(a, n);
    DividesCombination(g, a, n, u, v);
    DivisorBound(g, 1);
    GcdPositive(a, n);
  }

  lemma GcdDividesCongruent(a: nat, b: nat, q: int, n: nat)
    requires n > 0 && b == a + q * n
    ensures Divides(Gcd(a, n), Gcd(b, n))
  {
    var _, _ := GcdBezout(a, n);
    var g := Gcd(a, n);
    DividesCombination(g, a, n, 1, q);
    assert 1 * a + q * n == b;
    GcdUniversal(g, b, n);
  }

  /** Congruent numbers have the same greatest common divisor with the modulus. */
  lemma GcdCongruent(a: nat, b: nat, q: int, n: nat)
    requires n > 0 && b == a + q * n
    ensures Gcd(a, n) == Gcd(b, n)
  {
    GcdDividesCongruent(a, b, q, n);
    assert a == b + -q * n;
    GcdDividesCongruent(b, a, -q, n);
    GcdPositive(a, n);
    GcdPositive(b, n);
    DivisorBound(Gcd(a, n), Gcd(b, n));
    DivisorBound(Gcd(b, n), Gcd(a, n));
  }

  /** Reducing modulo `n` keeps the greatest common divisor with `n`. */
  lemma GcdMod(a: nat, n: nat)
    requires n > 0
    ensures Gcd(a % n, n) == Gcd(a, n)
  {
    assert a == a % n + (a / n) * n;
    GcdCongruent(a % n, a, a / n, n);
  }

  lemma BezoutProduct(a: int, b: int, n: int, u: int, v: int, u': int, v': int) returns (w: int)
    requires u * a + v * n == 1 && u' * b + v' * n == 1
    ensures (u * u') * (a * b) + w * n == 1
  {
    var x, y := u * a, u' * b;
    w := v + v' - v * v' * n;
    assert x == 1 - v * n && y == 1 - v' * n;
    assert x * y == 1 - w * n by {
      calc {
        x * y;
        (1 - v * n) * (1 - v' * n);
        1 - v * n - v' * n + (v * n) * (v' * n);
        { Swap4(v, n, v', n); assert (v * v') * (n * n) == (v * v' * n) * n; }
        1 - v * n - v' * n + (v * v' * n) * n;
        1 - (v + v' - v * v' * n) * n;
      }
    }
    Swap4(u, a, u', b);
  }

  /** A product is coprime to `n` exactly when both factors are. */
  lemma CoprimeProduct(a: nat, b: nat, n: nat)
    requires n > 0
    ensures Coprime(a * b, n) <==> Coprime(a, n) && Coprime(b, n)
  {
    if Coprime(a, n) && Coprime(b, n) {
      var u, v := GcdBezout(a, n);
      var u', v' := GcdBezout(b, n);
      var w := BezoutProduct(a, b, n, u, v, u', v');
      CoprimeFromCombination(a * b, n, u * u', w);
    }
    if Coprime(a * b, n) {
      FactorCoprime(a, b, n);
      assert a * b == b * a;
      FactorCoprime(b, a, n);
    }
  }

  lemma FactorCoprime(a: nat, b: nat, n: nat)
    requires n > 0 && Coprime(a * b, n)
    ensures Coprime(a, n)
  {
    var u, v := GcdBezout(a * b, n);
    assert u * (a * b) == (u * b) * a;
    CoprimeFromCombination(a, n, u * b, v);
  }

  lemma Swap4(a: int, b: int, c: int, d: int)
    ensures (a * b) * (c * d) == (a * c) * (b * d)
  {
    calc {
      (a * b) * (c * d);
      a * (b * (c * d));
      a * (c * (b * d));
      (a * c) * (b * d);
    }
  }

  /** `math.gcd`, by Euclid's loop. */
  method MathGcd(a: nat, b: nat) returns (g: nat)
    requires b > 0
    ensures g == Gcd(a, b)
  {
    var x: nat, y: nat := b, a % b;
    GcdMod(a, b);
    GcdSymmetric(y, b);
    while y > 0
      invariant x > 0 && Gcd(a, b) == GcdOrSelf(x, y)
      decreases y
    {
      GcdMod(x, y);
      var z := x % y;
      if z > 0 {
        GcdSymmetric(z, y);
      } else {
        DividesBy(0, y, 0);
        GcdIsWhole(0, y);
      }
      x, y := y, z;
    }
    g := x;
  }

  ghost function GcdOrSelf(x: nat, y: nat): nat {
    if y == 0 then x else Gcd(x, y)
  }

  lemma GcdSymmetric(a: nat, b: nat)
    requires b > 0
    ensures a > 0 ==> Gcd(a, b) == Gcd(b, a)
    ensures a == 0 ==> Gcd(a, b) == b
  {
    if a > 0 {
      var h := Gcd(a, b);
      assert IsGcd(h, a, b);
      GcdUnique(h, b, a);
    } else {
      DividesBy(0, b, 0);
      GcdIsWhole(0, b);
    }
  }

  /** Quotient and remainder are determined by their defining equation. */
  lemma DivModUnique(x: int, n: int, q: int, r: int)
    requires n > 0 && x == q * n + r && 0 <= r < n
    ensures x / n == q && x % n == r
  {
    var q', r' := x / n, x % n;
    assert x == n * q' + r';
    assert (q - q') * n == q * n - n * q';
    SmallMultiple(q - q', n);
  }

  lemma SmallMultiple(k: int, n: int)
    requires -n < k * n < n
    ensures k == 0
  {
    if k >= 1 {
      PositiveFactor(k, n);
    } else if k <= -1 {
      assert -k * n == -(k * n);
      PositiveFactor(-k, n);
    }
  }
}
