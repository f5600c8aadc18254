/**
 The text of decimals. `Text` defines what is printed; `Numeral` defines what
 is read: an optional sign, digits, and at most one point.
 */
module DecimalText {
  import opened Arith
  import opened Wrappers
  import opened Digits
  import opened Decimal
  import opened Finite
  import opened Rounding
  import opened Sequences

  /** The printed form: exactly `scale` digits follow the point. */
  function Text(unscaled: int, scale: int): string {
    if scale <= 0 then FormatInt(unscaled) + Zeros(if unscaled == 0 then 0 else -scale)
    else Pointed(SignText(unscaled) + Padded(FormatNat(Abs(unscaled)), scale), scale)
  }

  function SignText(unscaled: int): string { if unscaled < 0 then "-" else "" }

  /** Leading zeros up to one place before the point. */
  function Padded(d: string, scale: nat): (s: string)
    ensures |s| > scale
  {
    Zeros(Max(0, scale + 1 - |d|)) + d
  }

  /** A point in front of the last `scale` characters. */
  function Pointed(w: string, scale: nat): string
    requires scale <= |w|
  {
    w[..|w| - scale] + "." + w[|w| - scale..]
  }

  /** What is printed for a scale that is not positive: an integer. */
  lemma IntegerText(unscaled: int, scale: int)
    requires scale <= 0
    ensures Text(unscaled, scale) == FormatInt(unscaled * Pow(10, -scale))
  {
    IntegerShape(unscaled, -scale);
    assert FormatInt(unscaled) + Zeros(0) == FormatInt(unscaled);
  }

  /**
   What is printed for a positive scale: sign, whole part, point, and as many
   digits as the scale says.
   */
  lemma FractionText(unscaled: int, scale: nat) returns (whole: nat, frac: string)
    requires scale > 0
    ensures |frac| == scale && AllDigits(frac) && Abs(unscaled) == whole * Pow(10, scale) + NatValue(frac)
    ensures Text(unscaled, scale) == (if unscaled < 0 then "-" else "") + FormatNat(whole) + "." + frac
  {
    var d := FormatNat(Abs(unscaled));
    var w := Padded(d, scale);
    SplitText(SignText(unscaled), w, scale);
    FormatNatValue(Abs(unscaled));
    PaddedValue(d, scale);
    WholePart(d, scale);
    var front := w[..|w| - scale];
    frac := w[|w| - scale..];
    assert front + frac == w;
    NatValueAppend(front, frac);
    FormatNatCanonical(front);
    whole := NatValue(front);
  }

  lemma SplitText(sign: string, w: string, scale: nat)
    requires scale <= |w|
    ensures Pointed(sign + w, scale) == sign + w[..|w| - scale] + "." + w[|w| - scale..]
  {
    var v := sign + w;
    assert v[..|v| - scale] == sign + w[..|w| - scale];
    assert v[|v| - scale..] == w[|w| - scale..];
  }

  /** The whole part has no leading zero unless it is zero. */
  lemma WholePart(d: string, scale: nat)
    requires scale > 0 && d != "" && (d[0] == '0' ==> |d| == 1)
    ensures var w := Padded(d, scale);
            |w| > scale && (w[0] == '0' ==> |w| - scale == 1)
  {
  }

  lemma IntegerShape(i: int, zeros: nat)
    ensures FormatInt(i) + Zeros(if i == 0 then 0 else zeros) == FormatInt(i * Pow(10, zeros))
  {
    if i == 0 {
      assert FormatInt(0) + Zeros(0) == FormatInt(0);
      assert 0 * Pow(10, zeros) == 0;
    } else {
      var n := Abs(i);
      ShiftedDigits(n, zeros);
      FormatNatValue(n);
      FormatNatCanonical(FormatNat(n) + Zeros(zeros));
      AbsProduct(i, Pow(10, zeros));
      ProductSign(Pow(10, zeros), i);
      assert i * Pow(10, zeros) == Pow(10, zeros) * i;
      assert "-" + FormatNat(n) + Zeros(zeros) == "-" + (FormatNat(n) + Zeros(zeros));
    }
  }

  /** Appends n zeros, 64 at a time. */
  method AppendZeros(s: string, n: int) returns (r: string)
    ensures r == s + Zeros(Max(0, n))
  {
    r := s;
    var lzeros := 64;
    var zeros := Zeros(lzeros);
    var i := 0;
    while i < n
      invariant i >= 0 && r == s + Zeros(Max(0, Min(i, n)))
    {
      if n > i + lzeros {
        r := r + zeros;
        assert Zeros(i) + Zeros(lzeros) == Zeros(i + lzeros);
      } else {
        r := r + zeros[..n - i];
        assert Zeros(i) + Zeros(lzeros)[..n - i] == Zeros(n);
      }
      i := i + lzeros;
    }
  }

  function Min(a: int, b: int): int { if a < b then a else b }

  /** `Dec.String`. */
  method String(x: Dec?) returns (text: string)
    ensures x == null ==> text == "<nil>"
    ensures x != null ==> text == Text(x.unscaled, x.scale)
  {
    if x == null { return "<nil>"; }
    var scale := x.scale;
    var s := FormatInt(x.unscaled);
    if scale <= 0 {
      if scale != 0 && x.unscaled != 0 {
        s := AppendZeros(s, -scale);
      }
      assert s + Zeros(0) == s;
      return s;
    }
    var negbit := if x.unscaled < 0 then 1 else 0;
    assert s == SignText(x.unscaled) + FormatNat(Abs(x.unscaled));
    text := Fraction(s, negbit, scale, SignText(x.unscaled), FormatNat(Abs(x.unscaled)));
  }

  /** The part of `Dec.String` for a positive scale, on the digits of the number. */
  method Fraction(s: string, negbit: nat, scale: nat, ghost sign: string, ghost d: string) returns (text: string)
    requires s == sign + d && |sign| == negbit && (sign == "" || sign == "-")
    ensures text == Pointed(sign + Padded(d, scale), scale)
  {
    var lens := |s|;
    if lens - negbit <= scale {
      var ss := if negbit == 1 then "-" else "";
      ss := ss + "0.";
      ss := AppendZeros(ss, scale - lens + negbit);
      assert s[negbit..] == d;
      ss := ss + s[negbit..];
      ShortText(sign, d, scale);
      return ss;
    }
    assert Padded(d, scale) == d;
    return s[..lens - scale] + "." + s[lens - scale..];
  }

  /** No more digits than places: a zero before the point. */
  lemma ShortText(sign: string, d: string, scale: nat)
    requires |d| <= scale
    ensures Pointed(sign + Padded(d, scale), scale) == sign + "0." + Zeros(scale - |d|) + d
  {
    var z := Zeros(scale - |d|);
    var w := sign + Padded(d, scale);
    assert Padded(d, scale) == "0" + (z + d);
    assert w[..|w| - scale] == sign + "0";
    assert w[|w| - scale..] == z + d;
  }

  // --- reading -------------------------------------------------------------

  /** d is the position of the first point, or the length when there is none. */
  ghost predicate PointAt(s: string, d: nat) {
    d <= |s| && (d < |s| ==> s[d] == '.') && forall i :: 0 <= i < d ==> s[i] != '.'
  }

  lemma {:induction false} PointExists(s: string)
    ensures exists d: nat :: PointAt(s, d)
    decreases |s|
  {
    if s == "" || s[0] == '.' {
      assert PointAt(s, 0);
    } else {
      PointExists(s[1..]);
      var d: nat :| PointAt(s[1..], d);
      assert forall i :: 1 <= i < d + 1 ==> s[i] == s[1..][i - 1];
      assert PointAt(s, d + 1);
    }
  }

  ghost function Point(s: string): (d: nat)
    ensures PointAt(s, d)
  {
    PointExists(s);
    var d: nat :| PointAt(s, d);
    d
  }

  /** The string without its first point. */
  ghost function WithoutPoint(s: string): string {
    var d := Point(s);
    if d < |s| then s[..d] + s[d + 1..] else s
  }

  /** A sign is allowed only in front of everything, the point included. */
  ghost predicate IsNumeral(s: string) {
    IsSignedDigits(WithoutPoint(s)) && !(Point(s) == 0 && IsSign(WithoutPoint(s)[0]))
  }

  ghost function Places(s: string): nat { if Point(s) < |s| then |s| - Point(s) - 1 else 0 }

  /** What a numeral denotes: unscaled value and scale. */
  ghost function Numeral(s: string): Option<(int, int)> {
    if IsNumeral(s) then Some((SignedValue(WithoutPoint(s)), Places(s))) else None
  }

  /** s is a sign or none, digits, and behind a point more digits: one digit in all at least. */
  ghost predicate Written(s: string, sign: string, whole: string, point: bool, frac: string) {
    && s == sign + whole + (if point then "." + frac else "")
    && (sign == "" || sign == "+" || sign == "-") && AllDigits(whole) && AllDigits(frac)
    && whole + frac != "" && (!point ==> frac == "")
  }

  /** Such a text denotes its digits as an integer, and the number of those behind the point. */
  lemma NumeralOf(s: string, sign: string, whole: string, point: bool, frac: string, digits: string)
    requires Written(s, sign, whole, point, frac) && digits == whole + frac
    ensures AllDigits(digits)
    ensures Numeral(s) == Some((if sign == "-" then 0 - NatValue(digits) else NatValue(digits), |frac|))
  {
    PointOf(s, sign + whole, point, frac);
    Joined(sign, whole, frac);
    SignedNumeral(s, sign, digits, |frac|);
  }

  lemma SignedNumeral(s: string, sign: string, digits: string, places: nat)
    requires (sign == "" || sign == "+" || sign == "-") && digits != "" && AllDigits(digits)
    requires WithoutPoint(s) == sign + digits && Places(s) == places && (Point(s) == 0 ==> sign == "")
    ensures Numeral(s) == Some((if sign == "-" then 0 - NatValue(digits) else NatValue(digits), places))
  {
    SignedText(sign + digits, if sign == "-" then 0 - NatValue(digits) else NatValue(digits), sign, digits);
  }

  /** Where the point is, and what is left without it. */
  lemma PointOf(s: string, before: string, point: bool, frac: string)
    requires s == before + (if point then "." + frac else "") && (!point ==> frac == "")
    requires forall i :: 0 <= i < |before| ==> before[i] != '.'
    ensures Point(s) == |before| && WithoutPoint(s) == before + frac && Places(s) == |frac|
  {
    PointIs(s, |before|);
    assert s[..|before|] == before;
    if point { assert s[|before| + 1..] == frac; }
  }

  /** Every numeral has this form. */
  lemma NumeralParts(s: string) returns (sign: string, whole: string, point: bool, frac: string)
    requires Numeral(s).Some?
    ensures Written(s, sign, whole, point, frac)
  {
    var d, w := Point(s), WithoutPoint(s);
    point := d < |s|;
    frac := if point then s[d + 1..] else "";
    assert w == s[..d] + frac;
    sign, whole := SplitNumeral(s[..d], frac);
    assert s == s[..d] + if point then "." + frac else "";
  }

  lemma SplitNumeral(before: string, frac: string) returns (sign: string, whole: string)
    requires IsSignedDigits(before + frac) && (before == "" ==> !IsSign(frac[0]))
    ensures before == sign + whole && (sign == "" || sign == "+" || sign == "-")
    ensures AllDigits(whole) && AllDigits(frac) && whole + frac != ""
  {
    var w := before + frac;
    forall i | 0 <= i < |frac| ensures IsDigit(frac[i]) { assert frac[i] == w[|before| + i]; }
    if before != "" && IsSign(before[0]) {
      assert w[0] == before[0];
      sign, whole := [before[0]], before[1..];
      forall i | 0 <= i < |whole| ensures IsDigit(whole[i]) { assert whole[i] == w[i + 1]; }
      assert |whole + frac| == |w| - 1;
    } else {
      sign, whole := "", before;
      forall i | 0 <= i < |whole| ensures IsDigit(whole[i]) { assert whole[i] == w[i]; }
    }
  }

  lemma PointIs(s: string, d: nat)
    requires d <= |s| && (d < |s| ==> s[d] == '.')
    requires forall i :: 0 <= i < d ==> s[i] != '.'
    ensures Point(s) == d
  {
  }

  /**
   State of the scan after i characters: what was collected, where the point
   was, and whether a digit was seen.
   */
  predicate Progress(s: string, i: int, unscaled: string, dp: int, dg: int) {
    && 0 <= i <= |s| && -1 <= dp < i
    && |unscaled| == (if dp >= 0 then i - 1 else i)
    && (dp >= 0 ==> s[dp] == '.')
    && (forall j :: 0 <= j < (if dp >= 0 then dp else i) ==> s[j] != '.' && unscaled[j] == s[j])
    && (forall j :: 0 <= dp < j < i ==> unscaled[j - 1] == s[j])
    && (if dg == -1 then unscaled == "" || (|unscaled| == 1 && IsSign(unscaled[0])) else IsSignedDigits(unscaled))
    && (dp == 0 && unscaled != "" ==> !IsSign(unscaled[0]))
  }

  /** Whether the scan takes one more character: sign first, one point, digits. */
  predicate Accepts(ch: char, unscaled: string, dp: int) {
    if IsSign(ch) then |unscaled| == 0 && dp < 0
    else if ch == '.' then dp < 0
    else IsDigit(ch)
  }

  /** The loop of `Dec.scan`: collects characters until one does not fit. */
  method Scan(s: string) returns (i: int, unscaled: string, dp: int, dg: int)
    ensures Progress(s, i, unscaled, dp, dg)
    ensures i < |s| ==> !Accepts(s[i], unscaled, dp)
  {
    unscaled, dp, dg, i := "", -1, -1, 0;
    while i < |s| && Accepts(s[i], unscaled, dp)
      invariant Progress(s, i, unscaled, dp, dg)
    {
      if s[i] == '.' {
        PassPoint(s, i, unscaled, dg);
        dp := |unscaled|;
      } else {
        Collect(s, i, unscaled, dp, dg);
        if IsDigit(s[i]) && dg == -1 { dg := |unscaled|; }
        unscaled := unscaled + [s[i]];
      }
      i := i + 1;
    }
  }

  /** `Dec.SetString`: succeeds exactly when the whole string is a numeral. */
  method SetString(z: Dec, s: string) returns (ok: bool)
    modifies z
    ensures ok <==> Numeral(s).Some?
    ensures ok ==> (z.unscaled, z.scale) == Numeral(s).value
  {
    var i, unscaled, dp, dg := Scan(s);
    if i < |s| {
      RejectedIsNoNumeral(s, i, unscaled, dp, dg);
      return false;
    }
    ScannedAll(s, unscaled, dp, dg);
    if dg == -1 { return false; }
    z.scale := if dp >= 0 then |unscaled| - dp else 0;
    z.unscaled := SignedValue(unscaled);
    ok := true;
  }

  /** Collecting a sign or a digit keeps the scan on course. */
  lemma Collect(s: string, i: int, unscaled: string, dp: int, dg: int)
    requires Progress(s, i, unscaled, dp, dg) && i < |s|
    requires IsDigit(s[i]) || (IsSign(s[i]) && unscaled == "" && dp == -1)
    ensures Progress(s, i + 1, unscaled + [s[i]], dp,
                     if IsDigit(s[i]) && dg == -1 then |unscaled| else dg)
  {
  }

  /** The first point is recorded as the number of characters before it. */
  lemma PassPoint(s: string, i: int, unscaled: string, dg: int)
    requires Progress(s, i, unscaled, -1, dg) && i < |s| && s[i] == '.'
    ensures |unscaled| == i && Progress(s, i + 1, unscaled, i, dg)
  {
  }

  lemma ScannedAll(s: string, unscaled: string, dp: int, dg: int)
    requires Progress(s, |s|, unscaled, dp, dg)
    ensures Numeral(s) == if dg == -1 then None
                          else Some((SignedValue(unscaled), if dp >= 0 then |unscaled| - dp else 0))
  {
    PointIs(s, if dp >= 0 then dp else |s|);
    assert unscaled == WithoutPoint(s);
  }

  lemma RejectedIsNoNumeral(s: string, i: int, unscaled: string, dp: int, dg: int)
    requires Progress(s, i, unscaled, dp, dg) && i < |s| && !Accepts(s[i], unscaled, dp)
    ensures Numeral(s) == None
  {
    if dp >= 0 {
      RejectedAfterPoint(s, i, dp);
    } else {
      RejectedBeforePoint(s, i);
    }
  }

  lemma RejectedAfterPoint(s: string, i: int, dp: int)
    requires 0 <= dp < i < |s| && s[dp] == '.' && !IsDigit(s[i])
    requires forall j :: 0 <= j < dp ==> s[j] != '.'
    ensures !IsNumeral(s)
  {
    PointIs(s, dp);
    var w := WithoutPoint(s);
    assert w[i - 1] == s[i];
    if i > 1 || !IsSign(w[0]) { NotDigitInside(w, i - 1); }
  }

  lemma RejectedBeforePoint(s: string, i: int)
    requires 0 <= i < |s| && !IsDigit(s[i]) && (i == 0 ==> !IsSign(s[0]))
    requires forall j :: 0 <= j <= i ==> s[j] != '.'
    ensures !IsNumeral(s)
  {
    var w := WithoutPoint(s);
    assert Point(s) > i;
    assert w[i] == s[i] && w[0] == s[0];
    NotDigitInside(w, i);
  }

  lemma NotDigitInside(w: string, k: int)
    requires 0 <= k < |w| && !IsDigit(w[k]) && (k == 0 ==> !IsSign(w[0]))
    ensures !IsSignedDigits(w)
  {
  }

  // --- round trip ----------------------------------------------------------

  /**
   Reading the printed form restores a decimal of non-negative scale exactly;
   a negative scale is written out as trailing zeros and read as scale zero.
   */
  lemma ReadPrinted(unscaled: int, scale: int)
    ensures scale >= 0 ==> Numeral(Text(unscaled, scale)) == Some((unscaled, scale))
    ensures scale < 0 ==> Numeral(Text(unscaled, scale)) == Some((unscaled * Pow(10, -scale), 0))
  {
    if scale > 0 {
      ReadFraction(unscaled, scale);
    } else {
      ReadInteger(unscaled, if unscaled == 0 then 0 else -scale);
      assert Pow(10, 0) == 1;
    }
  }

  lemma SignedDigitsValue(unscaled: int, digits: string)
    requires |digits| > 0 && AllDigits(digits)
    ensures var w := SignText(unscaled) + digits;
            && IsSignedDigits(w) && SignedValue(w) == (if unscaled < 0 then 0 - NatValue(digits) else NatValue(digits))
            && forall i :: 0 <= i < |w| ==> w[i] != '.'
  {
    if unscaled < 0 { assert ("-" + digits)[1..] == digits; } else { assert "" + digits == digits; }
  }

  lemma ReadInteger(unscaled: int, zeros: nat)
    ensures Numeral(FormatInt(unscaled) + Zeros(zeros)) == Some((unscaled * Pow(10, zeros), 0))
  {
    var digits := FormatNat(Abs(unscaled)) + Zeros(zeros);
    ShiftedDigits(Abs(unscaled), zeros);
    SignedDigitsValue(unscaled, digits);
    NegatedProduct(unscaled, Pow(10, zeros));
    NoPoint(SignText(unscaled) + digits);
    assert FormatInt(unscaled) + Zeros(zeros) == SignText(unscaled) + digits;
  }

  lemma ShiftedDigits(n: nat, zeros: nat)
    ensures var digits := FormatNat(n) + Zeros(zeros);
            |digits| > 0 && AllDigits(digits) && NatValue(digits) == n * Pow(10, zeros)
  {
    FormatNatValue(n);
    NatValueZeros(zeros);
    NatValueAppend(FormatNat(n), Zeros(zeros));
  }

  lemma NoPoint(s: string)
    requires IsSignedDigits(s) && forall i :: 0 <= i < |s| ==> s[i] != '.'
    ensures Numeral(s) == Some((SignedValue(s), 0))
  {
    PointIs(s, |s|);
  }

  lemma NegatedProduct(a: int, b: int)
    ensures (-a) * b == -(a * b)
  {
  }

  lemma ReadFraction(unscaled: int, scale: nat)
    requires scale > 0
    ensures Numeral(Text(unscaled, scale)) == Some((unscaled, scale))
  {
    FormatNatValue(Abs(unscaled));
    ReadPadded(unscaled, FormatNat(Abs(unscaled)), scale);
  }

  lemma ReadPadded(unscaled: int, d: string, scale: nat)
    requires scale > 0 && AllDigits(d) && NatValue(d) == Abs(unscaled)
    ensures Numeral(Pointed(SignText(unscaled) + Padded(d, scale), scale)) == Some((unscaled, scale))
  {
    PaddedValue(d, scale);
    ReadSigned(unscaled, Padded(d, scale), scale);
  }

  lemma ReadSigned(unscaled: int, digits: string, scale: nat)
    requires 0 < scale < |digits| && AllDigits(digits) && NatValue(digits) == Abs(unscaled)
    ensures Numeral(Pointed(SignText(unscaled) + digits, scale)) == Some((unscaled, scale))
  {
    var w := SignText(unscaled) + digits;
    SignedDigitsValue(unscaled, digits);
    assert SignedValue(w) == unscaled;
    Rejoin(w, scale);
  }

  /** Putting a point into a string without one and taking it out again. */
  lemma Rejoin(w: string, scale: nat)
    requires 0 < scale < |w| && IsSignedDigits(w) && forall i :: 0 <= i < |w| ==> w[i] != '.'
    ensures Numeral(Pointed(w, scale)) == Some((SignedValue(w), scale))
  {
    PointTakenOut(w, scale);
  }

  lemma PointTakenOut(w: string, scale: nat)
    requires 0 < scale < |w| && forall i :: 0 <= i < |w| ==> w[i] != '.'
    ensures Point(Pointed(w, scale)) == |w| - scale && WithoutPoint(Pointed(w, scale)) == w
  {
    var s, d := Pointed(w, scale), |w| - scale;
    PointIs(s, d);
    assert s[..d] == w[..d];
    assert s[d + 1..] == w[d..];
    assert w[..d] + w[d..] == w;
  }

  lemma PaddedValue(d: string, scale: nat)
    requires AllDigits(d)
    ensures AllDigits(Padded(d, scale)) && NatValue(Padded(d, scale)) == NatValue(d)
  {
    var k := Max(0, scale + 1 - |d|);
    NatValueAppend(Zeros(k), d);
    NatValueZeros(k);
  }
}
