/**
 Integer facts shared by the other modules: powers, truncated division as Go's
 `big.Int.QuoRem` performs it, greatest common divisors with their Bezout
 coefficients, and the two's complement bit operations of `big.Int`.
 */
module Arith {

  function Abs(x: int): nat { if x < 0 then -x else x }

  function Sign(x: int): int { if x < 0 then -1 else if x == 0 then 0 else 1 }

  function Max(x: int, y: int): int { if x < y then y else x }

  /** b to the power n. */
  function Pow(b: nat, n: nat): (p: nat)
    ensures b > 0 ==> p > 0
  {
    if n == 0 then 1 else b * Pow(b, n - 1)
  }

  lemma {:induction false} PowAdd(b: nat, m: nat, n: nat)
    ensures Pow(b, m + n) == Pow(b, m) * Pow(b, n)
  {
    if m == 0 {
    } else {
      PowAdd(b, m - 1, n);
      MulAssoc(b, Pow(b, m - 1), Pow(b, n));
    }
  }

  lemma {:induction false} PowOf10(n: nat)
    ensures Pow(10, n) == Pow(2, n) * Pow(5, n)
  {
    if n == 0 {
    } else {
      PowOf10(n - 1);
      var p, q := Pow(2, n - 1), Pow(5, n - 1);
      assert 10 * (p * q) == (2 * p) * (5 * q);
    }
  }

  lemma MulAssoc(a: int, b: int, c: int)
    ensures a * (b * c) == (a * b) * c
  {
  }

  /** Monotonicity of multiplication by a natural number. */
  lemma MulMono(k: nat, a: int, b: int)
    requires a <= b
    ensures k * a <= k * b
  {
  }

  lemma MulStrict(k: int, a: int, b: int)
    requires k > 0
    ensures k * a < k * b <==> a < b
    ensures k * a == k * b <==> a == b
  {
  }

  /** Quotient and remainder are determined by their defining equation. */
  lemma DivUnique(n: int, d: int, q: int, r: int)
    requires d > 0 && 0 <= r < d && n == d * q + r
    ensures n / d == q && n % d == r
  {
    var q', r' := n / d, n % d;
    assert d * (q' - q) == r - r';
    if q' > q {
      MulMono(d, 1, q' - q);
    } else if q' < q {
      MulMono(d, q' - q, -1);
    }
  }

  /** d divides n. */
  ghost predicate Divides(d: int, n: int) {
    exists c :: n == d * c
  }

  lemma DividesSum(d: int, a: int, b: int, u: int, v: int)
    requires Divides(d, a) && Divides(d, b)
    ensures Divides(d, u * a + v * b)
  {
    var ca, cb :| a == d * ca && b == d * cb;
    assert u * a + v * b == d * (u * ca + v * cb) by {
      assert u * (d * ca) == d * (u * ca);
      assert v * (d * cb) == d * (v * cb);
    }
  }

  /** A divisor of a factor's multiple. */
  lemma DividesTrans(d: int, m: int, n: int)
    requires Divides(d, m) && Divides(m, n)
    ensures Divides(d, n)
  {
    var c, e :| m == d * c && n == m * e;
    MulAssoc(d, c, e);
  }

  /** Only the unit divides one. */
  lemma DividesOne(d: nat)
    requires Divides(d, 1)
    ensures d == 1
  {
    var c :| 1 == d * c;
    if d > 1 {
      if c >= 1 { MulMono(d, 1, c); } else { MulMono(d, c, 0); }
    }
  }

  lemma EvenTimes(a: int, b: int)
    requires a % 2 == 0
    ensures (a * b) % 2 == 0
  {
    var h := a / 2;
    assert a * b == 2 * (h * b);
  }

  lemma OddTimesOdd(a: int, b: int)
    requires a % 2 == 1 && b % 2 == 1
    ensures (a * b) % 2 == 1
  {
    var h := a / 2;
    OddProduct(h, b);
    EvenMore(h * b, b);
  }

  lemma OddProduct(h: int, b: int)
    ensures (2 * h + 1) * b == 2 * (h * b) + b
  {
  }

  lemma EvenMore(x: int, b: int)
    ensures (2 * x + b) % 2 == b % 2
  {
  }

  // --- truncated division -------------------------------------------------

  /** Quotient truncated toward zero, Go's `Quo`. */
  function TQuo(a: int, b: int): int
    requires b != 0
  {
    Sign(a) * Sign(b) * (Abs(a) / Abs(b))
  }

  /** Remainder belonging to the truncated quotient, Go's `Rem`. */
  function TRem(a: int, b: int): int
    requires b != 0
  {
    Sign(a) * (Abs(a) % Abs(b))
  }

  /** The remainder is smaller than the divisor and has the sign of the dividend. */
  lemma TQuoRem(a: int, b: int)
    requires b != 0
    ensures a == b * TQuo(a, b) + TRem(a, b)
    ensures Abs(TRem(a, b)) < Abs(b)
    ensures TRem(a, b) == 0 || Sign(TRem(a, b)) == Sign(a)
  {
    var q, r := Abs(a) / Abs(b), Abs(a) % Abs(b);
    assert Abs(a) == Abs(b) * q + r;
    if a > 0 && b < 0 {
      assert b * (-q) == (-b) * q;
    } else if a < 0 && b > 0 {
      assert b * (-q) == -(b * q);
    } else if a < 0 {
      assert b * q == -((-b) * q);
    }
  }

  // --- greatest common divisors -------------------------------------------

  function Gcd(a: nat, b: nat): (g: nat)
    ensures a > 0 || b > 0 ==> g > 0
    decreases b
  {
    if b == 0 then a else Gcd(b, a % b)
  }

  lemma DivMod(a: int, b: int)
    requires b != 0
    ensures a == (a / b) * b + 1 * (a % b)
  {
  }

  lemma {:induction false} GcdDivides(a: nat, b: nat)
    ensures Divides(Gcd(a, b), a) && Divides(Gcd(a, b), b)
    decreases b
  {
    var g := Gcd(a, b);
    if b == 0 {
      assert a == g * 1 && b == g * 0;
    } else {
      GcdDivides(b, a % b);
      DividesSum(g, b, a % b, a / b, 1);
      DivMod(a, b);
    }
  }

  /** Bezout: the greatest common divisor is an integer combination. */
  lemma {:induction false} Bezout(a: nat, b: nat) returns (u: int, v: int)
    ensures u * a + v * b == Gcd(a, b)
    decreases b
  {
    if b == 0 {
      u, v := 1, 0;
    } else {
      var u', v' := Bezout(b, a % b);
      u, v := v', u' - v' * (a / b);
      var q := a / b;
      assert a % b == a - q * b;
      assert v' * (a - q * b) == v' * a - (v' * q) * b;
      assert v * b == u' * b - (v' * q) * b;
    }
  }

  lemma Combine(u: int, n: int, v: int, d: int, t: int)
    ensures u * (n * t) + v * (d * t) == (u * n + v * d) * t
  {
    MulAssoc(u, n, t);
    MulAssoc(v, d, t);
  }

  /** A divisor coprime to one factor of a product divides the other one. */
  lemma Gauss(d: nat, n: nat, t: int)
    requires Gcd(n, d) == 1 && Divides(d, n * t)
    ensures Divides(d, t)
  {
    var u, v := Bezout(n, d);
    var c :| n * t == d * c;
    assert Divides(d, d * t) by { assert d * t == d * (t); }
    DividesSum(d, n * t, d * t, u, v);
    assert u * (n * t) + v * (d * t) == (u * n + v * d) * t by { Combine(u, n, v, d, t); }
  }

  // --- two's complement bit operations ------------------------------------

  /** Number of bits that differ from the sign: the recursion measure below. */
  function Magnitude(a: int): nat { if a >= 0 then a else -a - 1 }

  /** Bitwise exclusive or of two's complement integers of any width. */
  function Xor(a: int, b: int): int
    decreases Magnitude(a) + Magnitude(b)
  {
    if Magnitude(a) + Magnitude(b) == 0 then (if a == b then 0 else -1)
    else 2 * Xor(a / 2, b / 2) + (if a % 2 == b % 2 then 0 else 1)
  }

  /** Bitwise and of two's complement integers of any width. */
  function And(a: int, b: int): int
    decreases Magnitude(a) + Magnitude(b)
  {
    if Magnitude(a) + Magnitude(b) == 0 then (if a == 0 || b == 0 then 0 else -1)
    else 2 * And(a / 2, b / 2) + (if a % 2 == 1 && b % 2 == 1 then 1 else 0)
  }

  lemma XorStep(a: int, b: int)
    ensures Xor(a, b) / 2 == Xor(a / 2, b / 2)
    ensures Xor(a, b) % 2 == (if a % 2 == b % 2 then 0 else 1)
  {
  }

  lemma AndStep(a: int, b: int)
    ensures And(a, b) == 2 * And(a / 2, b / 2) + (if a % 2 == 1 && b % 2 == 1 then 1 else 0)
  {
  }

  /** Applying the same mask twice restores the value, negative masks included. */
  lemma {:induction false} XorInvolution(a: int, b: int)
    ensures Xor(Xor(a, b), b) == a
    decreases Magnitude(a) + Magnitude(b)
  {
    if Magnitude(a) + Magnitude(b) != 0 {
      var x := Xor(a, b);
      XorStep(a, b);
      XorInvolution(a / 2, b / 2);
      XorStep(x, b);
    }
  }

  /** The width of the result: k value bits, and the combined sign. */
  lemma {:induction false} XorRange(a: int, b: int, k: nat, m: int)
    requires m == Pow(2, k) && -m <= a < m && -m <= b < m
    ensures -m <= Xor(a, b) < m
    ensures Xor(a, b) >= 0 <==> (a >= 0 <==> b >= 0)
    decreases k
  {
    if k != 0 {
      XorRange(a / 2, b / 2, k - 1, Pow(2, k - 1));
      XorStep(a, b);
    }
  }

  /** Masking with k ones is reduction modulo 2^k, for negative numbers too. */
  lemma {:induction false} AndMask(a: int, k: nat, m: int)
    requires m == Pow(2, k)
    ensures And(a, m - 1) == a % m
    decreases k
  {
    if k == 0 {
      AndZero(a);
    } else {
      var h := Pow(2, k - 1);
      AndMask(a / 2, k - 1, h);
      AndStep(a, m - 1);
      assert (m - 1) / 2 == h - 1 && (m - 1) % 2 == 1;
      ModDouble(a, h);
    }
  }

  lemma ModDouble(a: int, h: nat)
    requires h > 0
    ensures a % (2 * h) == 2 * ((a / 2) % h) + a % 2
  {
    var q, r := (a / 2) / h, (a / 2) % h;
    assert a / 2 == h * q + r;
    MulAssoc(2, h, q);
    DivUnique(a, 2 * h, q, 2 * r + a % 2);
  }

  lemma {:induction false} AndZero(a: int)
    ensures And(a, 0) == 0
    decreases Magnitude(a)
  {
    if Magnitude(a) != 0 {
      AndZero(a / 2);
    }
  }

  /** Number of bits of |n|, Go's `BitLen`. */
  function BitLen(n: int): nat
    decreases Abs(n)
  {
    if n == 0 then 0 else 1 + BitLen(Abs(n) / 2)
  }

  lemma {:induction false} BitLenBounds(n: int)
    ensures Abs(n) < Pow(2, BitLen(n))
    ensures n != 0 ==> BitLen(n) > 0 && Pow(2, BitLen(n) - 1) <= Abs(n)
    decreases Abs(n)
  {
    if n != 0 {
      BitLenBounds(Abs(n) / 2);
    }
  }

  lemma {:induction false} PowMono(b: nat, m: nat, n: nat)
    requires b > 0 && m <= n
    ensures Pow(b, m) <= Pow(b, n)
  {
    PowAdd(b, m, n - m);
    MulMono(Pow(b, m), 1, Pow(b, n - m));
  }
}
