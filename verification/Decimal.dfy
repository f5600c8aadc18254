/**
 The mutable decimals of the ledger: an unscaled integer and a scale, with
 aligned addition, rounded division and exact division in place.
 */
module Decimal {
  import opened Arith
  import opened Rounding
  import opened Finite

  class Dec {
    var unscaled: int
    var scale: int

    constructor (unscaled: int, scale: int)
      ensures this.unscaled == unscaled && this.scale == scale
    {
      this.unscaled, this.scale := unscaled, scale;
    }

    method Set(x: Dec)
      modifies this
      ensures unscaled == old(x.unscaled) && scale == old(x.scale)
    {
      if this != x {
        unscaled := x.unscaled;
        scale := x.scale;
      }
    }

    /** The receiver itself at its own scale, otherwise a new decimal. */
    method Rescale(newScale: int) returns (r: Dec)
      ensures if newScale == scale then r == this else fresh(r)
      ensures r.scale == newScale
      ensures newScale >= scale ==> r.unscaled == unscaled * Pow(10, newScale - scale)
      ensures newScale < scale ==> r.unscaled == TQuo(unscaled, Pow(10, scale - newScale))
    {
      var shift := newScale - scale;
      if shift < 0 {
        r := new Dec(TQuo(unscaled, Pow(10, -shift)), newScale);
      } else if shift > 0 {
        r := new Dec(unscaled * Pow(10, shift), newScale);
      } else {
        r := this;
        assert Pow(10, 0) == 1;
      }
    }

    /** Brings two decimals to their larger scale, reusing the finer operand. */
    static method Upscale(a: Dec, b: Dec) returns (aa: Dec, bb: Dec)
      ensures (aa == a || fresh(aa)) && (bb == b || fresh(bb))
      ensures aa.scale == bb.scale == Max(a.scale, b.scale)
      ensures aa.unscaled == a.unscaled * Pow(10, aa.scale - a.scale)
      ensures bb.unscaled == b.unscaled * Pow(10, bb.scale - b.scale)
    {
      assert Pow(10, 0) == 1;
      aa, bb := a, b;
      if a.scale > b.scale {
        bb := b.Rescale(a.scale);
      } else if a.scale < b.scale {
        aa := a.Rescale(b.scale);
      }
    }

    /** Exact sum at the larger scale; the receiver may be one of the operands. */
    method Add(x: Dec, y: Dec)
      modifies this
      ensures scale == Max(old(x.scale), old(y.scale))
      ensures unscaled == old(x.unscaled) * Pow(10, scale - old(x.scale))
                          + old(y.unscaled) * Pow(10, scale - old(y.scale))
    {
      var xx, yy := Upscale(x, y);
      scale := xx.scale;
      unscaled := xx.unscaled + yy.unscaled;
    }

    /**
     Truncated quotient at scale s, and the remainder over its divisor: a finer
     scale multiplies the dividend by a power of ten, a coarser one the divisor.
     */
    method QuoRem(x: Dec, y: Dec, s: int, useRem: bool)
        returns (remNum: int, remDen: int, ghost num: int, ghost den: int)
      requires y.unscaled != 0
      modifies this
      ensures var shift := s - (old(x.scale) - old(y.scale));
              && (shift >= 0 ==> num == old(x.unscaled) * Pow(10, shift) && den == old(y.unscaled))
              && (shift < 0 ==> num == old(x.unscaled) && den == old(y.unscaled) * Pow(10, -shift))
      ensures scale == s && den != 0 && RoundsTo(Down, num, den, unscaled)
      ensures useRem ==> remDen == den && num == unscaled * den + remNum
    {
      var shift := s - (x.scale - y.scale);
      var ix, iy := x.unscaled, y.unscaled;
      assert Pow(10, 0) == 1;
      if shift > 0 {
        ix := ix * Pow(10, shift);
      } else if shift < 0 {
        iy := iy * Pow(10, -shift);
        NonZeroProduct(y.unscaled, Pow(10, -shift));
      }
      num, den := ix, iy;
      TruncatedRounds(ix, iy);
      scale := s;
      unscaled := TQuo(ix, iy);
      if useRem {
        remNum, remDen := TRem(ix, iy), iy;
      } else {
        remNum, remDen := 0, 1;
      }
    }

    /** `roundHalf`: moves the quotient when the bit lengths decide so. */
    method RoundHalf(r: Rounder, q: Dec, rA: int, rB: int)
      requires r.Half() && Abs(rA) < Abs(rB)
      requires q.unscaled != 0 && rA != 0 ==> Sign(q.unscaled * rB) == Sign(rA)
      modifies this
      ensures scale == old(q.scale)
      ensures RoundsTo(r, old(q.unscaled) * rB + rA, rB, unscaled)
    {
      HalfRounds(r, q.unscaled, rA, rB);
      Set(q);
      if RoundsAway(r, rA, rB, unscaled % 2 == 1) {
        unscaled := unscaled + Sign(rA) * Sign(rB);
      }
    }

    /** `roundUp`: away from zero, if anything remains. */
    method RoundUp(q: Dec, rA: int, rB: int)
      requires Abs(rA) < Abs(rB)
      requires q.unscaled != 0 && rA != 0 ==> Sign(q.unscaled * rB) == Sign(rA)
      modifies this
      ensures scale == old(q.scale) && RoundsTo(Up, old(q.unscaled) * rB + rA, rB, unscaled)
    {
      UpRounds(q.unscaled, rA, rB);
      Set(q);
      if rA != 0 { unscaled := unscaled + Sign(rA) * Sign(rB); }
    }

    /** `roundFloor`. */
    method RoundFloor(q: Dec, rA: int, rB: int)
      requires Abs(rA) < Abs(rB)
      modifies this
      ensures scale == old(q.scale) && RoundsTo(Floor, old(q.unscaled) * rB + rA, rB, unscaled)
    {
      FloorRounds(q.unscaled, rA, rB);
      Set(q);
      if Sign(rA) * Sign(rB) < 0 { unscaled := unscaled - 1; }
    }

    /** `roundCeil`. */
    method RoundCeil(q: Dec, rA: int, rB: int)
      requires Abs(rA) < Abs(rB)
      modifies this
      ensures scale == old(q.scale) && RoundsTo(Ceil, old(q.unscaled) * rB + rA, rB, unscaled)
    {
      CeilRounds(q.unscaled, rA, rB);
      Set(q);
      if Sign(rA) * Sign(rB) > 0 { unscaled := unscaled + 1; }
    }

    /** `roundExact`: refuses when anything remains. */
    method RoundExact(q: Dec, rA: int, rB: int) returns (ok: bool)
      requires rB != 0
      modifies this
      ensures ok <==> rA == 0
      ensures ok ==> scale == old(q.scale) && RoundsTo(Exact, old(q.unscaled) * rB + rA, rB, unscaled)
    {
      if rA != 0 { return false; }
      ExactRounds(q.unscaled, rB);
      Set(q);
      ok := true;
    }

    /**
     Every rounder: adjusts the truncated quotient q in place of the receiver,
     or refuses when the mode is Exact and something remains.
     */
    method ApplyRounder(r: Rounder, q: Dec, rA: int, rB: int) returns (ok: bool)
      requires r.UseRemainder() ==> Abs(rA) < Abs(rB)
      requires r.UseRemainder() && q.unscaled != 0 && rA != 0 ==> Sign(q.unscaled * rB) == Sign(rA)
      modifies this
      ensures ok <==> (r.Exact? ==> rA == 0)
      ensures ok ==> scale == old(q.scale)
      ensures !r.UseRemainder() ==> unscaled == old(q.unscaled)
      ensures ok && r.UseRemainder() ==> RoundsTo(r, old(q.unscaled) * rB + rA, rB, unscaled)
    {
      ok := true;
      match r {
        case Exact => ok := RoundExact(q, rA, rB);
        case Down => Set(q);
        case Up => RoundUp(q, rA, rB);
        case Floor => RoundFloor(q, rA, rB);
        case Ceil => RoundCeil(q, rA, rB);
        case _ => RoundHalf(r, q, rA, rB);
      }
    }

    /** Sets the receiver to x/y rounded at scale s; untouched on refusal. */
    method Quo(x: Dec, y: Dec, s: int, r: Rounder) returns (ok: bool, ghost num: int, ghost den: int)
      requires y.unscaled != 0
      modifies this
      ensures var shift := s - (old(x.scale) - old(y.scale));
              && (shift >= 0 ==> num == old(x.unscaled) * Pow(10, shift) && den == old(y.unscaled))
              && (shift < 0 ==> num == old(x.unscaled) && den == old(y.unscaled) * Pow(10, -shift))
      ensures den != 0 && (ok <==> (r.Exact? ==> Divides(den, num)))
      ensures ok ==> scale == s && RoundsTo(r, num, den, unscaled)
      ensures !ok ==> unchanged(this)
    {
      var rA, rB;
      var zz := new Dec(0, 0);
      var zzz := new Dec(0, 0);
      rA, rB, num, den := zz.QuoRem(x, y, s, r.UseRemainder());
      TruncatedFacts(num, den, zz.unscaled);
      ok := zzz.ApplyRounder(r, zz, rA, rB);
      if ok { Set(zzz); }
    }

    /** `Round`: division by one. The receiver may be x. */
    method Round(x: Dec, s: int, r: Rounder) returns (ok: bool)
      modifies this
      ensures s >= old(x.scale) ==>
              && ok && RoundsTo(r, old(x.unscaled) * Pow(10, s - old(x.scale)), 1, unscaled)
      ensures s < old(x.scale) ==>
              var den := Pow(10, old(x.scale) - s);
              && (ok <==> (r.Exact? ==> Divides(den, old(x.unscaled))))
              && (ok ==> RoundsTo(r, old(x.unscaled), den, unscaled))
      ensures ok ==> scale == s
      ensures !ok ==> unchanged(this)
    {
      var one := new Dec(1, 0);
      DividedByOne(x.unscaled * Pow(10, Abs(s - x.scale)));
      ghost var num, den;
      ok, num, den := Quo(x, one, s, r);
    }

    /** The scale at which x/y ends, if it ends at all. */
    static method ScaleQuoExact(x: Dec, y: Dec) returns (s: int)
      requires y.unscaled != 0
      ensures s >= x.scale - y.scale
      ensures FiniteDecimal(x.unscaled, y.unscaled)
         <==> Divides(y.unscaled, x.unscaled * Pow(10, s - (x.scale - y.scale)))
      ensures forall k: nat :: Divides(y.unscaled, x.unscaled * Pow(10, k)) ==> s - (x.scale - y.scale) <= k
    {
      var n, d := Abs(x.unscaled), Abs(y.unscaled);
      Reduced(n, d);
      var denom := d / Gcd(n, d);
      var f2, m2 := Factor2(denom);
      var f5, m5 := Factor(denom, 5);
      FiniteAtScale(x.unscaled, y.unscaled, f2, m2, f5, m5);
      var f10 := if f2 > f5 then f2 else f5;
      forall k: nat | Divides(y.unscaled, x.unscaled * Pow(10, k)) ensures f10 <= k {
        NeededPlaces(x.unscaled, y.unscaled, k, f2, m2, f5, m5);
      }
      s := x.scale - y.scale + f10;
    }

    /** x/y without rounding: succeeds exactly for finite expansions. */
    method QuoExact(x: Dec, y: Dec) returns (ok: bool)
      requires y.unscaled != 0
      modifies this
      ensures ok <==> FiniteDecimal(old(x.unscaled), old(y.unscaled))
      ensures ok ==> scale >= old(x.scale) - old(y.scale)
      ensures ok ==> unscaled * old(y.unscaled) == old(x.unscaled) * Pow(10, scale - (old(x.scale) - old(y.scale)))
      ensures ok ==> forall k: nat :: Divides(old(y.unscaled), old(x.unscaled) * Pow(10, k))
                                      ==> scale - (old(x.scale) - old(y.scale)) <= k
      ensures !ok ==> unchanged(this)
    {
      var s := ScaleQuoExact(x, y);
      assert x.unscaled * Pow(10, 0) == x.unscaled;
      ghost var num, den;
      ok, num, den := Quo(x, y, s, Exact);
    }
  }

  // --- 32-bit scales ------------------------------------------------------------

  predicate IsInt32(n: int) { -0x8000_0000 <= n < 0x8000_0000 }

  /** Two's complement arithmetic on 32 bits. */
  function Wrap32(n: int): (w: int)
    ensures IsInt32(w) && (IsInt32(n) <==> w == n)
  {
    (n + 0x8000_0000) % 0x1_0000_0000 - 0x8000_0000
  }

  lemma WrapTwice(a: int, b: int)
    ensures Wrap32(a - Wrap32(b)) == Wrap32(a - b)
  {
    var k := (b + 0x8000_0000) / 0x1_0000_0000;
    assert Wrap32(b) == b - 0x1_0000_0000 * k;
    Periodic(a - b, k);
  }

  lemma Periodic(n: int, k: int)
    ensures (n + 0x1_0000_0000 * k + 0x8000_0000) % 0x1_0000_0000 == (n + 0x8000_0000) % 0x1_0000_0000
  {
  }

  /** The shift of a division at 32 bits is the true one exactly when that fits, in whatever order it is taken. */
  lemma QuotientShiftFits(s: int, xs: int, ys: int)
    ensures Wrap32(s - Wrap32(xs - ys)) == s - (xs - ys) <==> IsInt32(s - (xs - ys))
  {
    WrapTwice(s, xs - ys);
  }

  /** Likewise the shift of an aligned addition. */
  lemma AlignedShiftFits(xs: int, ys: int)
    ensures Wrap32(Max(xs, ys) - xs) == Max(xs, ys) - xs <==> IsInt32(Max(xs, ys) - xs)
  {
  }

  lemma NonZeroProduct(y: int, p: nat)
    requires y != 0 && p > 0
    ensures y * p != 0
  {
    AbsProduct(y, p);
    MulStrict(p, 0, Abs(y));
  }

  lemma DividedByOne(n: int)
    ensures Divides(1, n)
  {
    assert n == 1 * n;
  }

  lemma TruncatedRounds(num: int, den: int)
    requires den != 0
    ensures RoundsTo(Down, num, den, TQuo(num, den)) && num == TQuo(num, den) * den + TRem(num, den)
  {
    TQuoRem(num, den);
    assert TQuo(num, den) * den == den * TQuo(num, den);
  }

  /** A truncated quotient points in the direction of its remainder, which is zero only for a multiple. */
  lemma TruncatedFacts(num: int, den: int, q: int)
    requires den != 0 && RoundsTo(Down, num, den, q)
    ensures var r := num - q * den;
            && Abs(r) < Abs(den)
            && (q != 0 && r != 0 ==> Sign(q * den) == Sign(r))
            && (r == 0 <==> Divides(den, num))
  {
    var r := num - q * den;
    assert q * den == den * q;
    RemainderZero(num, den, q, r);
    if q != 0 && r != 0 { ProductDominates(q, den, r); }
  }

  lemma RemainderZero(num: int, den: int, q: int, r: int)
    requires num == den * q + r && Abs(r) < Abs(den)
    ensures r == 0 <==> Divides(den, num)
  {
    if Divides(den, num) {
      var c :| num == den * c;
      assert den * (c - q) == r;
      SmallMultiple(den, c - q, r);
    }
  }

  /** Adding less than one divisor does not change the sign of a multiple. */
  lemma ProductDominates(q: int, d: int, r: int)
    requires q != 0 && Abs(r) < Abs(d)
    ensures Sign(q * d + r) == Sign(q * d) != 0
  {
    if q >= 1 {
      if d > 0 { MulMono(d, 1, q); } else { MulMono(-d, 1, q); }
    } else {
      if d > 0 { MulMono(d, q, -1); } else { MulMono(-d, q, -1); }
    }
  }

  lemma SmallMultiple(d: int, k: int, r: int)
    requires r == d * k && Abs(r) < Abs(d)
    ensures r == 0
  {
    if k >= 1 { MulMono(Abs(d), 1, k); } else if k <= -1 { MulMono(Abs(d), k, -1); }
  }
}
