/**
 Payment identifiers, their text form, and the encoder that hides the payment
 part: multiplication by a unit modulo 2^63 followed by a mask.
 */
module PaymentId {
  import opened Arith
  import opened Digits
  import opened Wrappers

  /** 2^63, one more than `math.MaxInt64`. */
  const MODULUS := 0x8000_0000_0000_0000

  lemma ModulusIsPower()
    ensures Pow(2, 63) == MODULUS
  {
    PowAdd(2, 32, 31);
    PowAdd(2, 16, 16);
    PowAdd(2, 16, 15);
    assert Pow(2, 16) == 65536 && Pow(2, 15) == 32768;
  }

  // --- the extended Euclidean algorithm of math/big ------------------------

  /**
   `big.Int.GCD` as the Go releases of the build matrix define it: zero for a
   non-positive operand, otherwise the divisor and its first Bezout coefficient.
   */
  method ExtendedGcd(a: int, b: int) returns (g: int, x: int, ghost y: int)
    ensures a <= 0 || b <= 0 ==> g == 0 && x == 0
    ensures a > 0 && b > 0 ==> g == Gcd(a, b) && a * x + b * y == g
  {
    if a <= 0 || b <= 0 {
      g, x, y := 0, 0, 0;
      return;
    }
    var u, v := a, b;
    var lastX, nextX := 1, 0;
    ghost var lastY, nextY := 0, 1;
    while v > 0
      invariant u >= 0 && v >= 0 && Gcd(u, v) == Gcd(a, b)
      invariant a * lastX + b * lastY == u && a * nextX + b * nextY == v
      decreases v
    {
      var q, r := u / v, u % v;
      EuclidStep(a, b, lastX, lastY, nextX, nextY, u, v);
      u, v := v, r;
      lastX, nextX := nextX, lastX - q * nextX;
      lastY, nextY := nextY, lastY - q * nextY;
    }
    g, x, y := u, lastX, lastY;
  }

  lemma EuclidStep(a: int, b: int, x0: int, y0: int, x1: int, y1: int, u: int, v: int)
    requires v > 0 && a * x0 + b * y0 == u && a * x1 + b * y1 == v
    ensures a * (x0 - (u / v) * x1) + b * (y0 - (u / v) * y1) == u % v
  {
    var q := u / v;
    assert a * (q * x1) == q * (a * x1);
    assert b * (q * y1) == q * (b * y1);
    assert q * v == q * (a * x1) + q * (b * y1);
  }

  /** A positive number is coprime to 2^63 exactly when it is odd. */
  lemma CoprimeToModulus(p: nat)
    requires p > 0
    ensures Gcd(p, MODULUS) == 1 <==> p % 2 == 1
  {
    ModulusIsPower();
    var g := Gcd(p, MODULUS);
    GcdDivides(p, MODULUS);
    if p % 2 == 0 {
      var u, v := Bezout(p, MODULUS);
      assert Divides(2, p) by { assert p == 2 * (p / 2); }
      assert Divides(2, MODULUS) by { assert MODULUS == 2 * (MODULUS / 2); }
      DividesSum(2, p, MODULUS, u, v);
    } else {
      var c :| p == g * c;
      assert g % 2 == 1 by {
        if g % 2 == 0 { EvenTimes(g, c); }
      }
      OddDivisorOfPower(g, 63);
    }
  }

  lemma {:induction false} OddDivisorOfPower(d: nat, k: nat)
    requires d % 2 == 1 && Divides(d, Pow(2, k))
    ensures d == 1
    decreases k
  {
    if k == 0 {
      DividesOne(d);
    } else {
      var c :| Pow(2, k) == d * c;
      assert c % 2 == 0 by {
        if c % 2 == 1 { OddTimesOdd(d, c); }
      }
      assert Pow(2, k - 1) == d * (c / 2) by { assert d * c == 2 * (d * (c / 2)); }
      OddDivisorOfPower(d, k - 1);
    }
  }

  // --- the encoder ---------------------------------------------------------

  datatype IDEncoder = IDEncoder(prime: int64, inv: int, xor: int64) {

    ghost predicate Valid() { (prime * inv) % MODULUS == 1 }

    /** Multiply, keep the low 63 bits, mask. */
    function Hide(i: int64): int64 {
      var hidden := And(i * prime, MODULUS - 1);
      HideInRange(i * prime, xor);
      Xor(hidden, xor)
    }

    /** Unmask, multiply by the inverse, keep the low 63 bits. */
    function Show(i: int64): int64 {
      var shown := Xor(i, xor) * inv;
      MaskedInRange(shown);
      And(shown, MODULUS - 1)
    }
  }

  lemma MaskedInRange(n: int)
    ensures And(n, MODULUS - 1) == n % MODULUS
  {
    ModulusIsPower();
    AndMask(n, 63, MODULUS);
  }

  lemma HideInRange(n: int, xor: int64)
    ensures IsInt64(Xor(And(n, MODULUS - 1), xor))
    ensures Xor(And(n, MODULUS - 1), xor) >= 0 <==> xor >= 0
  {
    ModulusIsPower();
    MaskedInRange(n);
    XorRange(n % MODULUS, xor, 63, MODULUS);
  }

  /**
   Behind the mask a hidden number is its product with the multiplier modulo
   2^63; and what is shown is the number whose product is what was masked.
   */
  lemma HidesProduct(m: IDEncoder, i: int64)
    ensures Xor(m.Hide(i), m.xor) == (i * m.prime) % MODULUS
    ensures m.Valid() ==> 0 <= m.Show(i) < MODULUS && (m.Show(i) * m.prime) % MODULUS == Xor(i, m.xor) % MODULUS
  {
    MaskedInRange(i * m.prime);
    XorInvolution((i * m.prime) % MODULUS, m.xor);
    if m.Valid() {
      var plain := Xor(i, m.xor);
      MaskedInRange(plain * m.inv);
      UnitUndone(plain, m.prime, m.inv, MODULUS);
    }
  }

  lemma UnitUndone(n: int, p: int, q: int, m: int)
    requires m > 1 && (p * q) % m == 1
    ensures (((n * q) % m) * p) % m == n % m
  {
    var r, k := n % m, n / m;
    assert n * q == r * q + m * (k * q) by { assert n == m * k + r; }
    SameRest(r * q, k * q, m);
    assert q * p == p * q;
    UnitCancels(r, q, p, m);
  }

  lemma SameRest(a: int, k: int, m: int)
    requires m > 0
    ensures (a + m * k) % m == a % m
  {
    DivUnique(a + m * k, m, a / m + k, a % m);
  }

  /** `NewIDEncoder`: accepts exactly the odd positive multipliers, and multiplies by them. */
  method NewIDEncoder(p: int64, xor: int64) returns (r: Result<IDEncoder, string>)
    ensures r.Ok? <==> p > 0 && p % 2 == 1
    ensures r.Ok? ==> r.value.Valid() && r.value.prime == p && r.value.xor == xor && 0 <= r.value.inv < MODULUS
    ensures r.Ok? ==> forall i: int64 :: Xor(r.value.Hide(i), xor) == (i * p) % MODULUS
    ensures r.Ok? ==> forall i: int64 :: (r.value.Show(i) * p) % MODULUS == Xor(i, xor) % MODULUS
  {
    var g, x, y := ExtendedGcd(p, MODULUS);
    if p > 0 { CoprimeToModulus(p); }
    if g != 1 {
      return Err("invalid p");
    }
    var inv := x % MODULUS;
    InverseReduced(p, x, y);
    var m := IDEncoder(p, inv, xor);
    forall i: int64
      ensures Xor(m.Hide(i), xor) == (i * p) % MODULUS
      ensures (m.Show(i) * p) % MODULUS == Xor(i, xor) % MODULUS
    {
      HidesProduct(m, i);
    }
    r := Ok(m);
  }

  lemma InverseReduced(p: int, x: int, y: int)
    requires p * x + MODULUS * y == 1
    ensures (p * (x % MODULUS)) % MODULUS == 1
  {
    var k := x / MODULUS;
    assert p * (x - MODULUS * k) == p * x - MODULUS * (p * k);
    DivUnique(p * (x % MODULUS), MODULUS, -y - p * k, 1);
  }

  /** Multiplying by a unit and by its inverse changes nothing. */
  lemma UnitCancels(i: int, p: int, q: int, m: int)
    requires m > 1 && 0 <= i < m && (p * q) % m == 1
    ensures (((i * p) % m) * q) % m == i
  {
    var k, j, r := (p * q) / m, (i * p) / m, (i * p) % m;
    assert r * q == i * (p * q) - m * (j * q) by {
      assert (i * p - m * j) * q == (i * p) * q - (m * j) * q;
    }
    assert i * (p * q) == i + m * (i * k) by {
      assert i * (m * k + 1) == i * (m * k) + i;
    }
    DivUnique(r * q, m, i * k - j * q, i);
  }

  /**
   `Hide` is a bijection from [0, 2^63) onto the integers that have the sign of
   the mask, and `Show` is its inverse on both sides.
   */
  lemma ShowHide(m: IDEncoder, i: int64)
    requires m.Valid() && i >= 0
    ensures m.Hide(i) >= 0 <==> m.xor >= 0
    ensures m.Show(m.Hide(i)) == i
  {
    HideInRange(i * m.prime, m.xor);
    var masked := And(i * m.prime, MODULUS - 1);
    XorInvolution(masked, m.xor);
    MaskedInRange(i * m.prime);
    MaskedInRange(masked * m.inv);
    UnitCancels(i, m.prime, m.inv, MODULUS);
  }

  lemma HideShow(m: IDEncoder, i: int64)
    requires m.Valid()
    ensures m.Show(i) >= 0
    ensures m.Hide(m.Show(i)) == i <==> (i >= 0 <==> m.xor >= 0)
  {
    var plain := Xor(i, m.xor);
    MaskedInRange(plain * m.inv);
    HideInRange(m.Show(i) * m.prime, m.xor);
    if i >= 0 <==> m.xor >= 0 {
      ModulusIsPower();
      XorRange(i, m.xor, 63, MODULUS);
      MaskedInRange(m.Show(i) * m.prime);
      assert m.inv * m.prime == m.prime * m.inv;
      UnitCancels(plain, m.inv, m.prime, MODULUS);
      XorInvolution(i, m.xor);
    }
  }

  // --- text ----------------------------------------------------------------

  datatype PaymentID = PaymentID(projectID: int64, paymentID: int64) {

    function Text(): string { FormatInt(projectID) + "-" + FormatInt(paymentID) }

    function Encoded(enc: IDEncoder): PaymentID { this.(paymentID := enc.Hide(paymentID)) }
  }

  /** `strings.Split` on one character. */
  function Split(s: string, sep: char): (parts: seq<string>)
    ensures |parts| > 0
  {
    if s == "" then [""]
    else
      var rest := Split(s[1..], sep);
      if s[0] == sep then [""] + rest else [[s[0]] + rest[0]] + rest[1..]
  }

  function ParsePaymentIDStr(str: string): Result<PaymentID, string> {
    var parts := Split(str, '-');
    if |parts| != 2 then Err("invalid payment id str. expecting two parts")
    else match ParseInt(parts[0])
      case None => Err("error parsing project id part")
      case Some(project) =>
        match ParseInt(parts[1])
        case None => Err("error parsing payment id part")
        case Some(payment) => Ok(PaymentID(project, payment))
  }

  function ParseEncodedPaymentIDStr(str: string, enc: IDEncoder): Result<PaymentID, string> {
    match ParsePaymentIDStr(str)
    case Err(e) => Err(e)
    case Ok(id) => Ok(id.(paymentID := enc.Show(id.paymentID)))
  }

  predicate Free(s: string, sep: char) { forall i :: 0 <= i < |s| ==> s[i] != sep }

  lemma {:induction false} SplitFree(s: string, sep: char)
    requires Free(s, sep)
    ensures Split(s, sep) == [s]
  {
    if s != "" {
      SplitFree(s[1..], sep);
      assert [s[0]] + s[1..] == s;
    }
  }

  /** One separator gives the two sides; each further one gives a further part. */
  lemma {:induction false} SplitJoin(s: string, t: string, sep: char)
    requires Free(s, sep)
    ensures Split(s + [sep] + t, sep) == [s] + Split(t, sep)
  {
    var joined := s + [sep] + t;
    if s == "" {
      assert joined[1..] == t;
    } else {
      SplitJoin(s[1..], t, sep);
      assert joined[1..] == s[1..] + [sep] + t;
      assert [s[0]] + s[1..] == s;
    }
  }

  lemma FormatIntFree(i: int)
    ensures Free(FormatInt(i), '-') <==> i >= 0
  {
    FormatNatValue(Abs(i));
    if i < 0 { assert FormatInt(i)[0] == '-'; }
  }

  /** Two separators give more than two parts. */
  lemma SplitTwice(s: string, t: string, u: string, sep: char)
    requires Free(s, sep) && Free(t, sep)
    ensures |Split(s + [sep] + (t + [sep] + u), sep)| > 2
  {
    SplitJoin(s, t + [sep] + u, sep);
    SplitJoin(t, u, sep);
  }

  /** The text splits into two parts exactly when no number carries a sign. */
  lemma SplitPrinted(id: PaymentID)
    ensures id.projectID >= 0 && id.paymentID >= 0 ==>
      Split(id.Text(), '-') == [FormatInt(id.projectID), FormatInt(id.paymentID)]
    ensures id.projectID < 0 || id.paymentID < 0 ==> |Split(id.Text(), '-')| > 2
  {
    var s, t := FormatInt(id.projectID), FormatInt(id.paymentID);
    FormatIntFree(id.projectID);
    FormatIntFree(id.paymentID);
    if id.projectID < 0 {
      FormatIntFree(Abs(id.projectID));
      SplitTwice("", FormatNat(Abs(id.projectID)), t, '-');
      assert id.Text() == "" + ['-'] + (FormatNat(Abs(id.projectID)) + ['-'] + t);
    } else if id.paymentID < 0 {
      SplitTwice(s, "", FormatNat(Abs(id.paymentID)), '-');
      assert id.Text() == s + ['-'] + ("" + ['-'] + FormatNat(Abs(id.paymentID)));
    } else {
      SplitJoin(s, t, '-');
      SplitFree(t, '-');
    }
  }

  /** Parsing undoes printing exactly for the identifiers without a sign. */
  lemma ParsePrinted(id: PaymentID)
    ensures ParsePaymentIDStr(id.Text()) == Ok(id) <==> id.projectID >= 0 && id.paymentID >= 0
    ensures id.projectID < 0 || id.paymentID < 0 ==> ParsePaymentIDStr(id.Text()).Err?
  {
    SplitPrinted(id);
    FormatIntValue(id.projectID);
    FormatIntValue(id.paymentID);
  }

  /** A digit string that the printer could have produced. */
  predicate Canonical(s: string) {
    |s| > 0 && AllDigits(s) && (s[0] != '0' || |s| == 1)
  }

  /** Printing undoes parsing exactly when both parts are canonical numerals. */
  lemma PrintParsed(str: string)
    requires ParsePaymentIDStr(str).Ok?
    ensures ParsePaymentIDStr(str).value.Text() == str
       <==> Canonical(Split(str, '-')[0]) && Canonical(Split(str, '-')[1])
  {
    var parts := Split(str, '-');
    var id := ParsePaymentIDStr(str).value;
    SplitPieces(str, '-');
    assert str == parts[0] + "-" + parts[1];
    PartCanonical(parts[0], id.projectID);
    PartCanonical(parts[1], id.paymentID);
    if id.Text() == str {
      SplitPrinted(id);
    }
  }

  lemma PartCanonical(part: string, i: int64)
    requires Free(part, '-') && ParseInt(part) == Some(i)
    ensures i >= 0
    ensures FormatInt(i) == part <==> Canonical(part)
  {
    FormatNatValue(i);
    if Canonical(part) { FormatNatCanonical(part); }
  }

  lemma {:induction false} SplitPieces(s: string, sep: char)
    ensures forall i :: 0 <= i < |Split(s, sep)| ==> Free(Split(s, sep)[i], sep)
    ensures |Split(s, sep)| == 1 ==> s == Split(s, sep)[0]
    ensures |Split(s, sep)| == 2 ==> s == Split(s, sep)[0] + [sep] + Split(s, sep)[1]
  {
    if s != "" {
      SplitPieces(s[1..], sep);
      assert s == [s[0]] + s[1..];
    }
  }

  /**
   The public identifier leads back to the payment exactly when neither number
   is negative and the configured mask is not negative either.
   */
  lemma EncodedRoundTrip(id: PaymentID, enc: IDEncoder)
    requires enc.Valid()
    ensures ParseEncodedPaymentIDStr(id.Encoded(enc).Text(), enc) == Ok(id)
       <==> id.projectID >= 0 && id.paymentID >= 0 && enc.xor >= 0
  {
    HideInRange(id.paymentID * enc.prime, enc.xor);
    ParsePrinted(id.Encoded(enc));
    HideShow(enc, enc.Hide(id.paymentID));
    if id.paymentID >= 0 { ShowHide(enc, id.paymentID); }
  }

  /** A public identifier names the project openly, and hides the payment. */
  lemma EncodedHides(id: PaymentID, enc: IDEncoder)
    ensures var e := id.Encoded(enc);
            e.projectID == id.projectID && Xor(e.paymentID, enc.xor) == (id.paymentID * enc.prime) % MODULUS
  {
    HidesProduct(enc, id.paymentID);
  }

  /** The number before the dash is the project's, the one behind it the payment's. */
  lemma ParsesAroundDash(str: string, project: int64, payment: int64, enc: IDEncoder)
    ensures ParsePaymentIDStr(str) == Ok(PaymentID(project, payment))
       <==> exists s, t :: Around(str, s, t) && ParseInt(s) == Some(project) && ParseInt(t) == Some(payment)
    ensures ParsePaymentIDStr(str) == Ok(PaymentID(project, payment)) ==>
              ParseEncodedPaymentIDStr(str, enc) == Ok(PaymentID(project, enc.Show(payment)))
  {
    var parts := Split(str, '-');
    SplitPieces(str, '-');
    if |parts| == 2 { assert Around(str, parts[0], parts[1]); }
    if exists s, t :: Around(str, s, t) && ParseInt(s) == Some(project) && ParseInt(t) == Some(payment) {
      var s, t :| Around(str, s, t) && ParseInt(s) == Some(project) && ParseInt(t) == Some(payment);
      SplitJoin(s, t, '-');
      SplitFree(t, '-');
      assert parts == [s, t];
    }
  }

  /** The string has one dash. */
  ghost predicate Around(str: string, s: string, t: string) {
    str == s + "-" + t && Free(s, '-') && Free(t, '-')
  }
}
