/**
 Base 10 text of integers: what `strconv.FormatInt` and `big.Int.String` print
 and what `strconv.ParseInt` and `big.Int.SetString` read back.
 */
module Digits {
  import opened Arith
  import opened Wrappers

  predicate IsDigit(c: char) { '0' <= c <= '9' }

  predicate AllDigits(s: string) { forall i :: 0 <= i < |s| ==> IsDigit(s[i]) }

  predicate IsSign(c: char) { c == '+' || c == '-' }

  function DigitChar(d: nat): (c: char)
    requires d < 10
  {
    ('0' as int + d) as char
  }

  function DigitValue(c: char): nat
    requires IsDigit(c)
  {
    c as int - '0' as int
  }

  /** The number written by a string of digits, most significant first. */
  function NatValue(s: string): nat
    requires AllDigits(s)
  {
    if s == "" then 0 else 10 * NatValue(s[..|s| - 1]) + DigitValue(s[|s| - 1])
  }

  function FormatNat(n: nat): string {
    if n < 10 then [DigitChar(n)] else FormatNat(n / 10) + [DigitChar(n % 10)]
  }

  function FormatInt(i: int): string {
    if i < 0 then "-" + FormatNat(-i) else FormatNat(i)
  }

  /** The text of a natural number: digits only, no leading zero, right value. */
  lemma {:induction false} FormatNatValue(n: nat)
    ensures |FormatNat(n)| > 0 && AllDigits(FormatNat(n)) && NatValue(FormatNat(n)) == n
    ensures FormatNat(n)[0] == '0' ==> n == 0
    decreases n
  {
    if n >= 10 {
      FormatNatValue(n / 10);
      var s := FormatNat(n);
      assert s[..|s| - 1] == FormatNat(n / 10);
    }
  }

  /** The character k places from the right is digit k of the number, and there are no more than it needs. */
  lemma {:induction false} FormatNatDigits(n: nat, k: nat)
    ensures var s := FormatNat(n);
            && (k < |s| ==> s[|s| - 1 - k] as int == 48 + (n / Pow(10, k)) % 10)
            && (k < |s| - 1 ==> Pow(10, k + 1) <= n)
            && (k >= |s| ==> n < Pow(10, k))
    decreases k
  {
    var s := FormatNat(n);
    if k == 0 {
      assert Pow(10, 0) == 1 && Pow(10, 1) == 10;
    } else if n < 10 {
      PowMono(10, 1, k);
      assert Pow(10, 1) == 10;
    } else {
      var t := FormatNat(n / 10);
      FormatNatDigits(n / 10, k - 1);
      DigitDropped(n, Pow(10, k - 1));
      assert k < |s| ==> s[|s| - 1 - k] == t[|t| - 1 - (k - 1)];
    }
  }

  lemma DigitDropped(n: nat, p: nat)
    requires p > 0
    ensures n / (10 * p) == (n / 10) / p
    ensures 10 * p <= n <==> p <= n / 10
  {
    var q, r := (n / 10) / p, (n / 10) % p;
    assert n / 10 == p * q + r;
    MulAssoc(10, p, q);
    DivUnique(n, 10 * p, q, 10 * r + n % 10);
  }

  /** A minus sign exactly in front of negative numbers, then the digits. */
  lemma FormatIntShape(i: int)
    ensures var s := FormatInt(i); var sign := if i < 0 then 1 else 0;
            && (s[0] == '-' <==> i < 0)
            && s[sign..] == FormatNat(Abs(i))
  {
    FormatNatValue(Abs(i));
  }

  /** A digit string without a leading zero is the text of its value. */
  lemma {:induction false} FormatNatCanonical(s: string)
    requires |s| > 0 && AllDigits(s) && (s[0] != '0' || |s| == 1)
    ensures FormatNat(NatValue(s)) == s
    ensures |s| > 1 ==> NatValue(s) >= 10
    decreases |s|
  {
    var t := s[..|s| - 1];
    if |s| == 1 {
      assert t == "";
    } else {
      FormatNatCanonical(t);
      assert NatValue(t) > 0 by {
        if |t| == 1 {
          assert t[..0] == "";
        }
      }
      assert s == t + [s[|s| - 1]];
    }
  }

  /** Appending digits shifts the value. */
  lemma {:induction false} NatValueAppend(s: string, t: string)
    requires AllDigits(s) && AllDigits(t)
    ensures AllDigits(s + t)
    ensures NatValue(s + t) == NatValue(s) * Pow(10, |t|) + NatValue(t)
    decreases |t|
  {
    if t == "" {
      assert s + t == s;
    } else {
      var t' := t[..|t| - 1];
      NatValueAppend(s, t');
      assert (s + t)[..|s + t| - 1] == s + t';
      assert (s + t)[|s + t| - 1] == t[|t| - 1];
      OneDigitMore(NatValue(s), Pow(10, |t'|), NatValue(t'), DigitValue(t[|t| - 1]));
    }
  }

  lemma OneDigitMore(a: nat, p: nat, b: nat, d: nat)
    ensures 10 * (a * p + b) + d == a * (10 * p) + (10 * b + d)
  {
    MulAssoc(10, a, p);
    MulAssoc(a, 10, p);
  }

  function Zeros(n: nat): (s: string)
    ensures |s| == n && forall i :: 0 <= i < n ==> s[i] == '0'
  {
    seq(n, i => '0')
  }

  lemma {:induction false} NatValueZeros(n: nat)
    ensures NatValue(Zeros(n)) == 0
    decreases n
  {
    if n > 0 {
      assert Zeros(n)[..n - 1] == Zeros(n - 1);
      NatValueZeros(n - 1);
    }
  }

  /** An optional sign followed by at least one digit. */
  predicate IsSignedDigits(s: string) {
    |s| > 0 && (IsSign(s[0]) ==> |s| > 1) && (IsDigit(s[0]) || IsSign(s[0]))
    && forall i :: 1 <= i < |s| ==> IsDigit(s[i])
  }

  function SignedValue(s: string): int
    requires IsSignedDigits(s)
  {
    if s[0] == '-' then 0 - NatValue(s[1..]) else if s[0] == '+' then NatValue(s[1..]) else NatValue(s)
  }

  /** What is printed is read back. */
  lemma FormatIntValue(i: int)
    ensures IsSignedDigits(FormatInt(i)) && SignedValue(FormatInt(i)) == i
  {
    FormatNatValue(Abs(i));
    var s := FormatInt(i);
    if i < 0 {
      assert s[1..] == FormatNat(-i);
    } else {
      assert !IsSign(s[0]);
    }
  }

  predicate IsInt64(i: int) { -0x8000_0000_0000_0000 <= i < 0x8000_0000_0000_0000 }

  type int64 = i: int | -0x8000_0000_0000_0000 <= i < 0x8000_0000_0000_0000

  /** `strconv.ParseInt(s, 10, 64)`. */
  function ParseInt(s: string): (r: Option<int64>) {
    if IsSignedDigits(s) && IsInt64(SignedValue(s)) then Some(SignedValue(s)) else None
  }

  /**
   What is accepted: one digit or more behind at most one sign, and a value
   that fits 64 bits.
   */
  lemma ParseIntForm(s: string, v: int)
    ensures IsInt64(v) && ParseInt(s) == Some(v)
       <==> -0x8000_0000_0000_0000 <= v <= 0x7fff_ffff_ffff_ffff
            && exists sign, digits :: Signed(s, v, sign, digits)
  {
    if IsSignedDigits(s) && v == SignedValue(s) {
      if IsSign(s[0]) {
        assert Signed(s, v, [s[0]], s[1..]);
      } else {
        assert Signed(s, v, "", s);
      }
    }
    if exists sign, digits :: Signed(s, v, sign, digits) {
      var sign, digits :| Signed(s, v, sign, digits);
      SignedText(s, v, sign, digits);
    }
  }

  lemma SignedText(s: string, v: int, sign: string, digits: string)
    requires Signed(s, v, sign, digits)
    ensures IsSignedDigits(s) && SignedValue(s) == v
  {
    if sign == "" {
      assert s == digits;
    } else {
      assert s[1..] == digits;
    }
  }

  /** s is a sign or none, followed by digits that write the magnitude of v. */
  ghost predicate Signed(s: string, v: int, sign: string, digits: string) {
    && s == sign + digits && digits != "" && AllDigits(digits)
    && (sign == "" || sign == "+" || sign == "-")
    && v == if sign == "-" then 0 - NatValue(digits) else NatValue(digits)
  }
}
