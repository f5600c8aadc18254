/**
 The rounding modes of the decimal package. `RoundsTo` defines each mode on
 rational numbers without reference to an algorithm; `RoundsAway` is the
 bit-length decision that `roundHalf` takes.
 */
module Rounding {
  import opened Arith

  datatype Rounder = Exact | Down | Up | HalfDown | HalfUp | HalfEven | Floor | Ceil {
    predicate Half() { HalfDown? || HalfUp? || HalfEven? }

    /** The remainder is computed only for the modes that look at it. */
    predicate UseRemainder() { !Down? }
  }

  /** n is the value that mode r assigns to the rational number num/den. */
  predicate RoundsTo(r: Rounder, num: int, den: int, n: int)
    requires den != 0
  {
    var e := num - n * den;
    match r
    case Exact => e == 0
    case Down => Abs(e) < Abs(den) && (e == 0 || Sign(e) == Sign(num))
    case Up => Abs(e) < Abs(den) && (e == 0 || Sign(e) == -Sign(num))
    case Floor => 0 <= Sign(den) * e < Abs(den)
    case Ceil => 0 <= -(Sign(den) * e) < Abs(den)
    case HalfDown => 2 * Abs(e) <= Abs(den) && (2 * Abs(e) == Abs(den) ==> Abs(n * den) < Abs(num))
    case HalfUp => 2 * Abs(e) <= Abs(den) && (2 * Abs(e) == Abs(den) ==> Abs(n * den) > Abs(num))
    case HalfEven => 2 * Abs(e) <= Abs(den) && (2 * Abs(e) == Abs(den) ==> n % 2 == 0)
  }

  /** Every mode determines at most one result. */
  lemma RoundingUnique(r: Rounder, num: int, den: int, n1: int, n2: int)
    requires den != 0 && RoundsTo(r, num, den, n1) && RoundsTo(r, num, den, n2)
    ensures n1 == n2
  {
    if n1 == n2 + 1 {
      NotBoth(r, num, den, n2);
    } else if n2 == n1 + 1 {
      NotBoth(r, num, den, n1);
    } else if n1 != n2 {
      ProductAtLeastDouble(n2 - n1, den);
      Distribute(n2, n1, den);
    }
  }

  /** The results that are documented for x/10, rounded to whole numbers; none for a refusal. */
  ghost predicate Documented(r: Rounder, x: int, n: int) {
    match r
    case Exact => x == 10 * n
    case Down => n == if x <= -10 then -1 else if x >= 10 then 1 else 0
    case Up => n == if x < -10 then -2 else if x < 0 then -1 else if x == 0 then 0 else if x <= 10 then 1 else 2
    case HalfDown => n == if x < -15 then -2 else if x < -5 then -1 else if x <= 5 then 0 else if x <= 15 then 1 else 2
    case HalfUp => n == if x <= -15 then -2 else if x <= -5 then -1 else if x < 5 then 0 else if x < 15 then 1 else 2
    case HalfEven => n == if x <= -15 then -2 else if x < -5 then -1 else if x <= 5 then 0 else if x < 15 then 1 else 2
    case Floor => n == if x < -10 then -2 else if x < 0 then -1 else if x < 10 then 0 else 1
    case Ceil => n == if x <= -10 then -1 else if x <= 0 then 0 else if x <= 10 then 1 else 2
  }

  /** Every mode is the documented one. */
  lemma DocumentedTables(r: Rounder, x: int, n: int)
    requires -18 <= x <= 18
    ensures RoundsTo(r, x, 10, n) <==> Documented(r, x, n)
  {
  }

  lemma Distribute(n2: int, n1: int, den: int)
    ensures (n2 - n1) * den == n2 * den - n1 * den
  {
  }

  /** No mode accepts two neighbours. */
  lemma NotBoth(r: Rounder, num: int, den: int, n: int)
    requires den != 0
    ensures !(RoundsTo(r, num, den, n) && RoundsTo(r, num, den, n + 1))
  {
    var p, p' := n * den, (n + 1) * den;
    assert p' == p + den;
    ProductSign(n, den);
    ProductSign(n + 1, den);
    if r.HalfEven? {
      assert n % 2 == 0 ==> (n + 1) % 2 == 1;
    }
  }

  /** The product of a non-negative and of a non-positive number with den. */
  lemma ProductSign(n: int, den: int)
    ensures n >= 0 ==> Sign(n * den) == 0 || Sign(n * den) == Sign(den)
    ensures n <= 0 ==> Sign(n * den) == 0 || Sign(n * den) == -Sign(den)
  {
  }

  lemma ProductAtLeastDouble(k: int, d: int)
    requires Abs(k) >= 2
    ensures Abs(k * d) >= 2 * Abs(d)
  {
    MulMono(Abs(d), 2, Abs(k));
    if k < 0 && d < 0 {
      assert k * d == (-d) * (-k);
    } else if k < 0 {
      assert k * d == -(d * (-k));
    } else if d < 0 {
      assert k * d == -((-d) * k);
    } else {
      assert k * d == d * k;
    }
  }

  /**
   The decision of `roundHalf`: most remainders are settled by comparing bit
   lengths, the others by doubling the remainder.
   */
  function RoundsAway(r: Rounder, rA: int, rB: int, odd: bool): bool
    requires r.Half()
  {
    var brA, brB := BitLen(rA), BitLen(rB);
    if brA < brB - 1 then false
    else if brA == brB - 1 then
      var srB := Sign(rB);
      var rA2 := if Sign(rA) * srB < 0 then -(2 * rA) else 2 * rA;
      var c := Sign(rA2 - rB) * srB;
      match r {
        case HalfDown => c > 0
        case HalfUp => c >= 0
        case _ => c > 0 || (c == 0 && odd)
      }
    else true
  }

  /** The shortcut agrees with the exact comparison of 2|rA| and |rB|. */
  lemma BitLengthShortcut(r: Rounder, rA: int, rB: int, odd: bool)
    requires r.Half() && Abs(rA) < Abs(rB)
    ensures RoundsAway(r, rA, rB, odd)
       <==> 2 * Abs(rA) > Abs(rB) || (2 * Abs(rA) == Abs(rB) && (r.HalfUp? || (r.HalfEven? && odd)))
  {
    var brA, brB := BitLen(rA), BitLen(rB);
    BitLenBounds(rA);
    BitLenBounds(rB);
    if brA < brB - 1 {
      PowMono(2, brA, brB - 2);
      assert Pow(2, brB - 1) == 2 * Pow(2, brB - 2);
    } else if brA > brB - 1 {
      if brA > brB { PowMono(2, brB, brA - 1); }
      assert Pow(2, brB) == 2 * Pow(2, brB - 1);
      assert rA != 0;
    }
  }

  lemma SignStep(rA: int, rB: int)
    ensures Sign(rB) * rB == Abs(rB)
    ensures (Sign(rA) * Sign(rB)) * rB == Sign(rA) * Abs(rB)
  {
  }

  /** Moving a truncated quotient by the sign of the remainder, or leaving it. */
  lemma QuotientStep(q: int, rA: int, rB: int)
    requires Abs(rA) < Abs(rB)
    requires q != 0 && rA != 0 ==> Sign(q * rB) == Sign(rA)
    ensures var s := Sign(rA) * Sign(rB); var num := q * rB + rA;
            && num - (q + s) * rB == rA - Sign(rA) * Abs(rB)
            && (rA != 0 ==> Sign(num) == Sign(rA) && Abs((q + s) * rB) == Abs(num) + (Abs(rB) - Abs(rA)))
            && Abs(q * rB) == Abs(num) - Abs(rA)
  {
    var s, p := Sign(rA) * Sign(rB), q * rB;
    SignStep(rA, rB);
    Distributed(q, s, rB);
    if q == 0 {
      assert p == 0;
    }
  }

  lemma Distributed(q: int, s: int, rB: int)
    ensures (q + s) * rB == q * rB + s * rB
  {
  }

  lemma ExactRounds(q: int, rB: int)
    requires rB != 0
    ensures RoundsTo(Exact, q * rB, rB, q)
  {
  }

  lemma UpRounds(q: int, rA: int, rB: int)
    requires Abs(rA) < Abs(rB)
    requires q != 0 && rA != 0 ==> Sign(q * rB) == Sign(rA)
    ensures RoundsTo(Up, q * rB + rA, rB, q + Sign(rA) * Sign(rB))
  {
    QuotientStep(q, rA, rB);
  }

  lemma FloorRounds(q: int, rA: int, rB: int)
    requires Abs(rA) < Abs(rB)
    ensures RoundsTo(Floor, q * rB + rA, rB, if Sign(rA) * Sign(rB) < 0 then q - 1 else q)
  {
    assert (q - 1) * rB == q * rB - rB;
  }

  lemma CeilRounds(q: int, rA: int, rB: int)
    requires Abs(rA) < Abs(rB)
    ensures RoundsTo(Ceil, q * rB + rA, rB, if Sign(rA) * Sign(rB) > 0 then q + 1 else q)
  {
    assert (q + 1) * rB == q * rB + rB;
  }

  /** The directed modes: where each moves a truncated quotient. */
  lemma DirectedRounds(q: int, rA: int, rB: int)
    requires Abs(rA) < Abs(rB)
    requires q != 0 && rA != 0 ==> Sign(q * rB) == Sign(rA)
    ensures var s := Sign(rA) * Sign(rB); var num := q * rB + rA;
            && RoundsTo(Up, num, rB, q + s)
            && RoundsTo(Floor, num, rB, if s < 0 then q - 1 else q)
            && RoundsTo(Ceil, num, rB, if s > 0 then q + 1 else q)
            && (rA == 0 ==> RoundsTo(Exact, num, rB, q))
  {
    UpRounds(q, rA, rB);
    FloorRounds(q, rA, rB);
    CeilRounds(q, rA, rB);
    ExactRounds(q, rB);
  }

  /** A value past the rational number, which falls short of the other neighbour by the rest. */
  lemma AwayValue(r: Rounder, num: int, rA: int, rB: int, n: int, p: int)
    requires r.Half() && Abs(rA) < Abs(rB) && p == n * rB
    requires Abs(num - p) == Abs(rB) - Abs(rA) && Abs(p) == Abs(num) + (Abs(rB) - Abs(rA))
    requires 2 * Abs(rA) > Abs(rB) || (2 * Abs(rA) == Abs(rB) && (r.HalfUp? || (r.HalfEven? && n % 2 == 0)))
    ensures RoundsTo(r, num, rB, n)
  {
  }

  lemma StayValue(r: Rounder, num: int, rA: int, rB: int, n: int, p: int)
    requires r.Half() && Abs(rA) < Abs(rB) && p == n * rB
    requires num - p == rA && Abs(p) == Abs(num) - Abs(rA)
    requires 2 * Abs(rA) < Abs(rB) || (2 * Abs(rA) == Abs(rB) && (r.HalfDown? || (r.HalfEven? && n % 2 == 0)))
    ensures RoundsTo(r, num, rB, n)
  {
  }

  lemma UnitSign(rA: int, rB: int)
    requires rA != 0 && rB != 0
    ensures Sign(rA) * Sign(rB) == 1 || Sign(rA) * Sign(rB) == -1
  {
  }

  lemma SignedRest(rA: int, rB: int)
    requires rA != 0 && Abs(rA) < Abs(rB)
    ensures Abs(rA - Sign(rA) * Abs(rB)) == Abs(rB) - Abs(rA)
  {
  }

  lemma AwayFacts(q: int, rA: int, rB: int)
    requires 0 < Abs(rA) < Abs(rB)
    requires q != 0 ==> Sign(q * rB) == Sign(rA)
    ensures var n, num := q + Sign(rA) * Sign(rB), q * rB + rA;
            && Abs(num - n * rB) == Abs(rB) - Abs(rA) && Abs(n * rB) == Abs(num) + (Abs(rB) - Abs(rA))
            && (q % 2 == 1 ==> n % 2 == 0)
  {
    QuotientStep(q, rA, rB);
    UnitSign(rA, rB);
    SignedRest(rA, rB);
  }

  lemma HalfAway(r: Rounder, q: int, rA: int, rB: int)
    requires r.Half() && Abs(rA) < Abs(rB)
    requires q != 0 && rA != 0 ==> Sign(q * rB) == Sign(rA)
    requires 2 * Abs(rA) > Abs(rB) || (2 * Abs(rA) == Abs(rB) && (r.HalfUp? || (r.HalfEven? && q % 2 == 1)))
    ensures RoundsTo(r, q * rB + rA, rB, q + Sign(rA) * Sign(rB))
  {
    var n := q + Sign(rA) * Sign(rB);
    AwayFacts(q, rA, rB);
    AwayValue(r, q * rB + rA, rA, rB, n, n * rB);
  }

  lemma HalfStays(r: Rounder, q: int, rA: int, rB: int)
    requires r.Half() && Abs(rA) < Abs(rB)
    requires q != 0 && rA != 0 ==> Sign(q * rB) == Sign(rA)
    requires 2 * Abs(rA) < Abs(rB) || (2 * Abs(rA) == Abs(rB) && (r.HalfDown? || (r.HalfEven? && q % 2 == 0)))
    ensures RoundsTo(r, q * rB + rA, rB, q)
  {
    QuotientStep(q, rA, rB);
    StayValue(r, q * rB + rA, rA, rB, q, q * rB);
  }

  /** The half modes: the bit-length decision selects the defined result. */
  lemma HalfRounds(r: Rounder, q: int, rA: int, rB: int)
    requires r.Half() && Abs(rA) < Abs(rB)
    requires q != 0 && rA != 0 ==> Sign(q * rB) == Sign(rA)
    ensures RoundsTo(r, q * rB + rA, rB,
                     if RoundsAway(r, rA, rB, q % 2 == 1) then q + Sign(rA) * Sign(rB) else q)
  {
    BitLengthShortcut(r, rA, rB, q % 2 == 1);
    if RoundsAway(r, rA, rB, q % 2 == 1) {
      HalfAway(r, q, rA, rB);
    } else {
      HalfStays(r, q, rA, rB);
    }
  }
}
