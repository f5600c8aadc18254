/** Standard base 64 of section 4 of RFC 4648, with padding. */
module Base64 {
  import opened Wrappers
  import opened Bytes
  import opened Sequences

  type sextet = x: int | 0 <= x < 64

  /** Table 1: the alphabet. */
  function Symbol(v: sextet): char {
    if v < 26 then ('A' as int + v) as char
    else if v < 52 then ('a' as int + (v - 26)) as char
    else if v < 62 then ('0' as int + (v - 52)) as char
    else if v == 62 then '+' else '/'
  }

  function Value(c: char): Option<sextet> {
    if 'A' <= c <= 'Z' then Some(c as int - 'A' as int)
    else if 'a' <= c <= 'z' then Some(c as int - 'a' as int + 26)
    else if '0' <= c <= '9' then Some(c as int - '0' as int + 52)
    else if c == '+' then Some(62)
    else if c == '/' then Some(63)
    else None
  }

  lemma SymbolValue(v: sextet)
    ensures Value(Symbol(v)) == Some(v) && Symbol(v) != '='
  {
  }

  /** The symbols follow each other from A, a and 0 on; the last two stand alone. */
  lemma AlphabetOrder(v: sextet)
    ensures Symbol(0) == 'A' && Symbol(26) == 'a' && Symbol(52) == '0' && Symbol(62) == '+' && Symbol(63) == '/'
    ensures v + 1 < 62 && v + 1 != 26 && v + 1 != 52 ==> Symbol(v + 1) as int == Symbol(v) as int + 1
  {
  }

  /** Three bytes as four symbols; missing bytes count as zero and become padding. */
  function Quantum(b: seq<byte>): (s: string)
    requires 1 <= |b| <= 3
    ensures |s| == 4
  {
    var x, y, z := b[0], if |b| > 1 then b[1] else 0, if |b| > 2 then b[2] else 0;
    [Symbol(x / 4), Symbol((x % 4) * 16 + y / 16),
     if |b| > 1 then Symbol((y % 16) * 4 + z / 64) else '=',
     if |b| > 2 then Symbol(z % 64) else '=']
  }

  function Encode(b: seq<byte>): string {
    if b == [] then ""
    else if |b| <= 3 then Quantum(b)
    else Quantum(b[..3]) + Encode(b[3..])
  }

  /** Four symbols as up to three bytes. */
  function Unquantum(s: string): Option<seq<byte>>
    requires |s| == 4
  {
    match (Value(s[0]), Value(s[1]))
    case (Some(p), Some(q)) =>
      if s[2] == '=' && s[3] == '=' then Some([p * 4 + q / 16])
      else (
        match Value(s[2])
        case Some(r) =>
          if s[3] == '=' then Some([p * 4 + q / 16, (q % 16) * 16 + r / 4])
          else (
            match Value(s[3])
            case Some(t) => Some([p * 4 + q / 16, (q % 16) * 16 + r / 4, (r % 4) * 64 + t])
            case None => None
          )
        case None => None
      )
    case _ => None
  }

  /** Padding may only end the text. */
  function Decode(s: string): Option<seq<byte>> {
    if s == "" then Some([])
    else if |s| < 4 then None
    else
      match Unquantum(s[..4])
      case None => None
      case Some(b) =>
        if |b| < 3 then (if |s| == 4 then Some(b) else None)
        else match Decode(s[4..])
          case None => None
          case Some(rest) => Some(b + rest)
  }

  lemma Regrouped(x: byte, y: byte, z: byte)
    ensures var p, q, r, t := x / 4, (x % 4) * 16 + y / 16, (y % 16) * 4 + z / 64, z % 64;
            p * 4 + q / 16 == x && (q % 16) * 16 + r / 4 == y && (r % 4) * 64 + t == z
  {
  }

  lemma SymbolsRead(x: byte, y: byte, z: byte)
    ensures Value(Symbol(x / 4)) == Some(x / 4) && Value(Symbol((x % 4) * 16 + y / 16)) == Some((x % 4) * 16 + y / 16)
    ensures Value(Symbol((y % 16) * 4 + z / 64)) == Some((y % 16) * 4 + z / 64) && Value(Symbol(z % 64)) == Some(z % 64)
    ensures Symbol((y % 16) * 4 + z / 64) != '=' && Symbol(z % 64) != '='
  {
    SymbolValue(x / 4);
    SymbolValue((x % 4) * 16 + y / 16);
    SymbolValue((y % 16) * 4 + z / 64);
    SymbolValue(z % 64);
  }

  lemma OneRoundTrip(x: byte)
    ensures Unquantum(Quantum([x])) == Some([x])
  {
    SymbolsRead(x, 0, 0);
    Regrouped(x, 0, 0);
  }

  lemma TwoRoundTrip(x: byte, y: byte)
    ensures Unquantum(Quantum([x, y])) == Some([x, y])
  {
    SymbolsRead(x, y, 0);
    Regrouped(x, y, 0);
  }

  lemma ThreeRoundTrip(x: byte, y: byte, z: byte)
    ensures Unquantum(Quantum([x, y, z])) == Some([x, y, z])
  {
    SymbolsRead(x, y, z);
    Regrouped(x, y, z);
  }

  lemma QuantumRoundTrip(b: seq<byte>)
    requires 1 <= |b| <= 3
    ensures Unquantum(Quantum(b)) == Some(b)
  {
    if |b| == 1 {
      OneRoundTrip(b[0]);
      assert b == [b[0]];
    } else if |b| == 2 {
      TwoRoundTrip(b[0], b[1]);
      assert b == [b[0], b[1]];
    } else {
      ThreeRoundTrip(b[0], b[1], b[2]);
      assert b == [b[0], b[1], b[2]];
    }
  }

  /** No other characters are symbols. */
  lemma ValueSymbol(c: char)
    ensures Value(c).Some? ==> Symbol(Value(c).value) == c
  {
  }

  /** Only whole quanta are read, with as many bytes as their padding leaves. */
  lemma {:induction false} DecodedLength(s: string)
    ensures Decode(s).Some? ==>
              && |s| % 4 == 0 && |s| == 4 * ((|Decode(s).value| + 2) / 3)
              && |Decode(s).value| % 3 == if s == "" || s[|s| - 1] != '=' then 0
                                          else if s[|s| - 2] != '=' then 2 else 1
  {
    if |s| > 4 && Decode(s).Some? {
      DecodedLength(s[4..]);
      QuantumLength(s[..4]);
    } else if |s| == 4 {
      assert s[..4] == s;
      QuantumLength(s);
    }
  }

  lemma QuantumLength(s: string)
    requires |s| == 4
    ensures Unquantum(s).Some? ==> |Unquantum(s).value| == if s[3] != '=' then 3 else if s[2] != '=' then 2 else 1
  {
  }

  lemma DecodeFirst(quantum: string, rest: string, b: seq<byte>)
    requires |quantum| == 4 && Unquantum(quantum) == Some(b)
    requires |b| == 3 || rest == ""
    ensures Decode(quantum + rest) == match Decode(rest) { case Some(more) => Some(b + more) case None => None }
  {
    var s := quantum + rest;
    assert s[..4] == quantum && s[4..] == rest;
    assert b + [] == b;
  }

  lemma {:induction false} DecodeEncoded(b: seq<byte>)
    ensures Decode(Encode(b)) == Some(b)
  {
    if 0 < |b| <= 3 {
      QuantumRoundTrip(b);
      DecodeFirst(Quantum(b), "", b);
      assert Quantum(b) + "" == Quantum(b) && b + [] == b;
    } else if |b| > 3 {
      QuantumRoundTrip(b[..3]);
      DecodeEncoded(b[3..]);
      DecodeFirst(Quantum(b[..3]), Encode(b[3..]), b[..3]);
      assert b[..3] + b[3..] == b;
    }
  }

  lemma ThreeFewer(n: nat)
    requires n >= 3
    ensures (n + 2) / 3 == (n - 3 + 2) / 3 + 1
  {
  }

  /** Four symbols for every three bytes, begun ones included. */
  lemma {:induction false} EncodedLength(b: seq<byte>)
    ensures |Encode(b)| == 4 * ((|b| + 2) / 3)
    decreases |b|
  {
    if |b| > 3 {
      EncodedLength(b[3..]);
      ThreeFewer(|b|);
    }
  }

  /** Line breaks in a text count for nothing. */
  function WithoutBreaks(s: string): string {
    if s == "" then ""
    else (if s[0] == '\r' || s[0] == '\n' then "" else [s[0]]) + WithoutBreaks(s[1..])
  }

  /** What a decoder makes of a text. */
  function Read(s: string): Option<seq<byte>> { Decode(WithoutBreaks(s)) }

  lemma {:induction false} BreaksJoined(a: string, b: string)
    ensures WithoutBreaks(a + b) == WithoutBreaks(a) + WithoutBreaks(b)
  {
    if a == "" {
      assert a + b == b;
    } else {
      var front := if a[0] == '\r' || a[0] == '\n' then "" else [a[0]];
      BreaksJoined(a[1..], b);
      assert (a + b)[1..] == a[1..] + b;
      Joined(front, WithoutBreaks(a[1..]), WithoutBreaks(b));
    }
  }

  lemma OnlyBreaks(line: string)
    requires line == "\n" || line == "\r\n"
    ensures WithoutBreaks(line) == ""
  {
    assert line[1..] == if line == "\n" then "" else "\n";
    assert "\n"[1..] == "";
  }

  /** A line may be broken anywhere. */
  lemma BreakAnywhere(a: string, line: string, b: string)
    requires line == "\n" || line == "\r\n"
    ensures Read(a + line + b) == Read(a + b)
  {
    OnlyBreaks(line);
    BreaksJoined(a, line);
    BreaksJoined(a + line, b);
    BreaksJoined(a, b);
    assert WithoutBreaks(a) + "" == WithoutBreaks(a);
  }

  predicate Unbroken(s: string) { forall i :: 0 <= i < |s| ==> s[i] != '\r' && s[i] != '\n' }

  lemma {:induction false} NothingToSkip(s: string)
    requires Unbroken(s)
    ensures WithoutBreaks(s) == s
  {
    if s != "" {
      NothingToSkip(s[1..]);
      assert [s[0]] + s[1..] == s;
    }
  }

  lemma QuantumUnbroken(b: seq<byte>)
    requires 1 <= |b| <= 3
    ensures Unbroken(Quantum(b))
  {
  }

  lemma {:induction false} EncodedUnbroken(b: seq<byte>)
    ensures Unbroken(Encode(b))
  {
    if 0 < |b| <= 3 {
      QuantumUnbroken(b);
    } else if |b| > 3 {
      QuantumUnbroken(b[..3]);
      EncodedUnbroken(b[3..]);
    }
  }

  /** Reading undoes encoding. */
  lemma ReadEncoded(b: seq<byte>)
    ensures Read(Encode(b)) == Some(b)
  {
    EncodedUnbroken(b);
    NothingToSkip(Encode(b));
    DecodeEncoded(b);
  }

  /** Four symbols have the bits of three bytes, the first ones highest; one or two bytes leave zeros. */
  lemma QuantumBits(b: seq<byte>)
    requires 1 <= |b| <= 3
    ensures var s := Quantum(b);
            var x: int, y: int, z: int := b[0], if |b| > 1 then b[1] else 0, if |b| > 2 then b[2] else 0;
            && Value(s[0]).Some? && Value(s[1]).Some?
            && (|b| > 1 <==> Value(s[2]).Some?) && (|b| > 2 <==> Value(s[3]).Some?)
            && (var p: int, q: int := Value(s[0]).value, Value(s[1]).value;
                var r: int := if |b| > 1 then Value(s[2]).value else 0;
                var t: int := if |b| > 2 then Value(s[3]).value else 0;
                x * 65536 + y * 256 + z == p * 262144 + q * 4096 + r * 64 + t)
            && (|b| < 2 ==> s[2] == '=') && (|b| < 3 ==> s[3] == '=')
  {
    var x: byte, y: byte, z: byte := b[0], if |b| > 1 then b[1] else 0, if |b| > 2 then b[2] else 0;
    SymbolsRead(x, y, z);
    Regrouped(x, y, z);
  }

  /** Section 10 of RFC 4648: f, fo and foo. */
  lemma TestVectors()
    ensures Encode([102]) == "Zg==" && Encode([102, 111]) == "Zm8=" && Encode([102, 111, 111]) == "Zm9v"
  {
  }

  /** A whole quantum in front of any bytes. */
  lemma QuantumFirst(b: seq<byte>, rest: seq<byte>)
    requires |b| == 3 && rest != []
    ensures Encode(b + rest) == Quantum(b) + Encode(rest)
  {
    assert (b + rest)[..3] == b && (b + rest)[3..] == rest;
  }
}
