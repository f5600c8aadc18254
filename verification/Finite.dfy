/**
 When a quotient of integers has a finite decimal expansion, and how many
 places it needs: the larger of the exponents of 2 and 5 in the reduced
 denominator.
 */
module Finite {
  import opened Arith

  /** Some power of ten times a/b is an integer. */
  ghost predicate FiniteDecimal(a: int, b: int) {
    exists k: nat :: Divides(b, a * Pow(10, k))
  }

  /** What is left after all factors p are taken out holds none. */
  lemma NoMoreFactors(n: nat, p: nat, f: nat, m: nat)
    requires p > 1 && n == Pow(p, f) * m && m % p != 0
    ensures Divides(Pow(p, f), n) && !Divides(Pow(p, f + 1), n)
  {
    if Divides(Pow(p, f + 1), n) {
      var c :| n == Pow(p, f + 1) * c;
      assert Pow(p, f) * m == Pow(p, f) * (p * c) by {
        MulAssoc(Pow(p, f), p, c);
      }
      MulStrict(Pow(p, f), m, p * c);
      DivUnique(m, p, c, 0);
    }
  }

  /** Counts how often p divides n. */
  method Factor(n: nat, p: nat) returns (f: nat, ghost m: nat)
    requires n > 0 && p > 1
    ensures Divides(Pow(p, f), n) && !Divides(Pow(p, f + 1), n)
    ensures n == Pow(p, f) * m && m % p != 0
  {
    var d := n;
    f := 0;
    while d % p == 0
      invariant d > 0 && n == Pow(p, f) * d
      decreases d
    {
      var dd := d / p;
      assert Pow(p, f) * (p * dd) == (p * Pow(p, f)) * dd;
      Shrinks(d, p);
      f := f + 1;
      d := dd;
    }
    m := d;
    NoMoreFactors(n, p, f, m);
  }

  lemma Shrinks(d: nat, p: nat)
    requires d > 0 && p > 1 && d % p == 0
    ensures d == p * (d / p) && 0 < d / p < d
  {
    var q := d / p;
    assert d == p * q;
    if q <= 0 { MulMono(p, q, 0); } else { MulMono(q, 2, p); }
  }

  /** Bit f of the two's complement form of n, Go's `Int.Bit`. */
  function Bit(n: int, f: nat): nat { (n / Pow(2, f)) % 2 }

  /** Counts the trailing zero bits of n. */
  method Factor2(n: nat) returns (f: nat, ghost m: nat)
    requires n > 0
    ensures Divides(Pow(2, f), n) && !Divides(Pow(2, f + 1), n)
    ensures n == Pow(2, f) * m && m % 2 == 1
  {
    f := 0;
    m := n;
    while Bit(n, f) == 0
      invariant m > 0 && n == Pow(2, f) * m
      decreases m
    {
      BitOfMultiple(n, f, m);
      assert Pow(2, f) * (2 * (m / 2)) == (2 * Pow(2, f)) * (m / 2);
      f := f + 1;
      m := m / 2;
    }
    BitOfMultiple(n, f, m);
    NoMoreFactors(n, 2, f, m);
  }

  lemma BitOfMultiple(n: nat, f: nat, m: nat)
    requires n == Pow(2, f) * m
    ensures Bit(n, f) == m % 2
  {
    DivUnique(n, Pow(2, f), m, 0);
  }

  lemma {:induction false} CancelOddFromTwos(m: nat, k: nat, t: int)
    requires m % 2 == 1 && Divides(m, Pow(2, k) * t)
    ensures Divides(m, t)
    decreases k
  {
    if k != 0 {
      MulAssoc(2, Pow(2, k - 1), t);
      CancelTwo(m, Pow(2, k - 1) * t);
      CancelOddFromTwos(m, k - 1, t);
    } else {
      assert Pow(2, 0) * t == t;
    }
  }

  lemma CancelTwo(m: nat, h: int)
    requires m % 2 == 1 && Divides(m, 2 * h)
    ensures Divides(m, h)
  {
    var c :| 2 * h == m * c;
    EvenCofactor(m, h, c);
    Halved(m, h, c / 2);
  }

  lemma EvenCofactor(m: nat, h: int, c: int)
    requires m % 2 == 1 && 2 * h == m * c
    ensures c % 2 == 0
  {
    if c % 2 == 1 { OddTimesOdd(m, c); }
  }

  lemma Halved(m: nat, h: int, e: int)
    requires 2 * h == m * (2 * e)
    ensures h == m * e
  {
    assert m * (2 * e) == 2 * (m * e);
  }

  lemma FiveIsPrime(a: int, b: int)
    requires (a * b) % 5 == 0
    ensures a % 5 == 0 || b % 5 == 0
  {
    var x, i, y, j := a / 5, a % 5, b / 5, b % 5;
    assert a * b == 5 * (x * b) + i * b by { assert a == 5 * x + i; }
    assert i * b == 5 * (i * y) + i * j by { assert b == 5 * y + j; }
    if i == 1 { assert i * j == j; }
    if i == 2 { assert i * j == 2 * j; }
    if i == 3 { assert i * j == 3 * j; }
    if i == 4 { assert i * j == 4 * j; }
  }

  /** A divisor of a power of five is a power of five. */
  lemma {:induction false} DivisorOfFives(m: nat, k: nat) returns (j: nat)
    requires Divides(m, Pow(5, k))
    ensures m == Pow(5, j)
    decreases k
  {
    if k == 0 {
      j := 0;
      DividesOne(m);
    } else {
      var c :| Pow(5, k) == m * c;
      var p := Pow(5, k - 1);
      assert (m * c) % 5 == 0 by { assert m * c == 5 * p; }
      FiveIsPrime(m, c);
      if m % 5 == 0 {
        assert p == (m / 5) * c by { assert m * c == 5 * ((m / 5) * c); }
        var j' := DivisorOfFives(m / 5, k - 1);
        j := j' + 1;
      } else {
        assert p == m * (c / 5) by { assert m * c == 5 * (m * (c / 5)); }
        j := DivisorOfFives(m, k - 1);
      }
    }
  }

  /** A divisor of some power of ten divides the power given by its factors. */
  lemma DivisorOfTens(d: nat, k: nat, f2: nat, m2: nat, f5: nat, m5: nat)
    requires Divides(d, Pow(10, k))
    requires d == Pow(2, f2) * m2 && m2 % 2 == 1
    requires d == Pow(5, f5) * m5 && m5 % 5 != 0
    ensures Divides(d, Pow(10, Max(f2, f5)))
  {
    PowOf10(k);
    assert Divides(m2, d) by { assert d == m2 * Pow(2, f2); }
    DividesTrans(m2, d, Pow(10, k));
    CancelOddFromTwos(m2, k, Pow(5, k));
    var j := DivisorOfFives(m2, k);
    FivesInProduct(f2, j, f5, m5);
    var f := Max(f2, f5);
    PowOf10(f);
    PowAdd(2, f2, f - f2);
    PowAdd(5, j, f - j);
    assert Pow(10, f) == d * (Pow(2, f - f2) * Pow(5, f - j)) by {
      Interchange(Pow(2, f2), Pow(2, f - f2), Pow(5, j), Pow(5, f - j));
    }
  }

  lemma Interchange(a: int, b: int, c: int, d: int)
    ensures (a * b) * (c * d) == (a * c) * (b * d)
  {
    assert (a * b) * (c * d) == a * (b * (c * d));
    assert b * (c * d) == c * (b * d);
  }

  /** The exponent of five in 2^f2 * 5^j is j. */
  lemma {:induction false} FivesInProduct(f2: nat, j: nat, f5: nat, m5: nat)
    requires Pow(2, f2) * Pow(5, j) == Pow(5, f5) * m5 && m5 % 5 != 0
    ensures j <= f5
    decreases j
  {
    if j > 0 {
      var left, p := Pow(2, f2), Pow(5, j - 1);
      assert left * (5 * p) == 5 * (left * p);
      if f5 == 0 {
        MultipleOfFive(m5, left * p);
      } else {
        var q := Pow(5, f5 - 1);
        MulAssoc(5, q, m5);
        FivesInProduct(f2, j - 1, f5 - 1, m5);
      }
    }
  }

  lemma MultipleOfFive(m: int, k: int)
    requires m == 5 * k
    ensures m % 5 == 0
  {
  }

  /** Dividing both numbers by their greatest common divisor leaves none. */
  lemma Reduced(a: nat, b: nat)
    requires b > 0
    ensures var g := Gcd(a, b);
            && a == g * (a / g) && b == g * (b / g) && b / g > 0 && Gcd(a / g, b / g) == 1
  {
    var g := Gcd(a, b);
    GcdDivides(a, b);
    ExactDivision(a, g);
    ExactDivision(b, g);
    var u, v := Bezout(a, b);
    MulStrict(g, 0, b / g);
    CoprimeQuotients(g, a / g, b / g, u, v);
  }

  lemma CoprimeQuotients(g: nat, n: nat, d: nat, u: int, v: int)
    requires g > 0 && d > 0 && u * (g * n) + v * (g * d) == g
    ensures Gcd(n, d) == 1
  {
    assert g * n == n * g && g * d == d * g;
    Combine(u, n, v, d, g);
    assert (u * n + v * d) * g == g * (u * n + v * d);
    MulStrict(g, u * n + v * d, 1);
    GcdDivides(n, d);
    DividesSum(Gcd(n, d), n, d, u, v);
    DividesOne(Gcd(n, d));
  }

  lemma ExactDivision(n: nat, g: nat)
    requires g > 0 && Divides(g, n)
    ensures n == g * (n / g)
  {
    var c :| n == g * c;
    DivUnique(n, g, c, 0);
  }

  lemma DividesAbs(b: int, n: int, b': int, n': int)
    requires Abs(b) == Abs(b') && Abs(n) == Abs(n') && Divides(b, n)
    ensures Divides(b', n')
  {
    var c :| n == b * c;
    assert n' == b' * c || n' == b' * (-c);
  }

  /** A quotient that ends after k places has a reduced denominator that divides 10^k. */
  lemma ReducedDividesTens(a: int, b: int, k: nat)
    requires b != 0 && Divides(b, a * Pow(10, k))
    ensures Divides(Abs(b) / Gcd(Abs(a), Abs(b)), Pow(10, k))
  {
    var n, d := Abs(a), Abs(b);
    var g := Gcd(n, d);
    Reduced(n, d);
    AbsProduct(a, Pow(10, k));
    DividesAbs(b, a * Pow(10, k), d, n * Pow(10, k));
    var c :| n * Pow(10, k) == d * c;
    assert Divides(d / g, (n / g) * Pow(10, k)) by {
      assert g * ((n / g) * Pow(10, k)) == g * ((d / g) * c) by {
        MulAssoc(g, n / g, Pow(10, k));
        MulAssoc(g, d / g, c);
      }
      MulStrict(g, (n / g) * Pow(10, k), (d / g) * c);
    }
    Gauss(d / g, n / g, Pow(10, k));
  }

  /**
   The expansion is finite exactly when it ends after as many places as the
   larger exponent of 2 and 5 in the reduced denominator.
   */
  lemma FiniteAtScale(a: int, b: int, f2: nat, m2: nat, f5: nat, m5: nat)
    requires b != 0
    requires var d := Abs(b) / Gcd(Abs(a), Abs(b));
             && d == Pow(2, f2) * m2 && m2 % 2 == 1 && d == Pow(5, f5) * m5 && m5 % 5 != 0
    ensures FiniteDecimal(a, b) <==> Divides(b, a * Pow(10, Max(f2, f5)))
  {
    var f := Max(f2, f5);
    if FiniteDecimal(a, b) {
      var k: nat :| Divides(b, a * Pow(10, k));
      var n, d := Abs(a), Abs(b);
      var g := Gcd(n, d);
      Reduced(n, d);
      ReducedDividesTens(a, b, k);
      DivisorOfTens(d / g, k, f2, m2, f5, m5);
      ScaleUp(d / g, Pow(10, f), g, n / g);
      AbsProduct(a, Pow(10, f));
      DividesAbs(d, n * Pow(10, f), b, a * Pow(10, f));
    }
  }

  /** No fewer places will do. */
  lemma NeededPlaces(a: int, b: int, k: nat, f2: nat, m2: nat, f5: nat, m5: nat)
    requires b != 0 && Divides(b, a * Pow(10, k))
    requires var d := Abs(b) / Gcd(Abs(a), Abs(b));
             && d == Pow(2, f2) * m2 && m2 % 2 == 1 && d == Pow(5, f5) * m5 && m5 % 5 != 0
    ensures Max(f2, f5) <= k
  {
    var d := Abs(b) / Gcd(Abs(a), Abs(b));
    ReducedDividesTens(a, b, k);
    var c :| Pow(10, k) == d * c;
    PowOf10(k);
    OtherPrime(k);
    MulAssoc(Pow(2, f2), m2, c);
    FactorBound(2, f2, m2 * c, k, Pow(5, k));
    MulAssoc(Pow(5, f5), m5, c);
    FactorBound(5, f5, m5 * c, k, Pow(2, k));
  }

  lemma {:induction false} OtherPrime(k: nat)
    ensures Pow(5, k) % 2 != 0 && Pow(2, k) % 5 != 0
  {
    if k != 0 {
      OtherPrime(k - 1);
      OtherStep(Pow(5, k - 1), Pow(2, k - 1));
    }
  }

  lemma OtherStep(a: int, b: int)
    requires a % 2 != 0 && b % 5 != 0
    ensures (5 * a) % 2 != 0 && (2 * b) % 5 != 0
  {
  }

  /** The exponent of p in p^k * v is k when p does not divide v. */
  lemma FactorBound(p: nat, f: nat, u: int, k: nat, v: int)
    requires p > 1 && v % p != 0 && Pow(p, f) * u == Pow(p, k) * v
    ensures f <= k
  {
    if f > k {
      var e := Pow(p, f - k - 1);
      PowAdd(p, k, f - k);
      MulAssoc(Pow(p, k), p * e, u);
      MulStrict(Pow(p, k), p * e * u, v);
      MulAssoc(p, e, u);
      DivUnique(v, p, e * u, 0);
    }
  }

  lemma AbsProduct(a: int, p: nat)
    ensures Abs(a * p) == Abs(a) * p
  {
    if a < 0 { assert (-a) * p == -(a * p); MulMono(p, a, 0); } else { MulMono(p, 0, a); }
  }

  lemma ScaleUp(d: nat, t: nat, g: nat, n: nat)
    requires Divides(d, t)
    ensures Divides(g * d, (g * n) * t)
  {
    var c :| t == d * c;
    Interchange(g, n, d, c);
    assert (g * n) * (d * c) == (g * d) * (n * c);
  }
}
