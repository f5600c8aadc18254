/** Bytes, and ASCII text as bytes. */
module Bytes {

  type byte = x: int | 0 <= x < 256

  function FromText(s: string): (b: seq<byte>)
    requires forall i :: 0 <= i < |s| ==> s[i] as int < 256
    ensures |b| == |s|
  {
    seq(|s|, i requires 0 <= i < |s| => s[i] as int)
  }

  function ToText(b: seq<byte>): (s: string)
    ensures |s| == |b| && forall i :: 0 <= i < |s| ==> s[i] as int == b[i]
  {
    seq(|b|, i requires 0 <= i < |b| => AsChar(b[i]))
  }

  function AsChar(x: byte): char { x as char }

  lemma TextRoundTrip(s: string)
    requires forall i :: 0 <= i < |s| ==> s[i] as int < 256
    ensures ToText(FromText(s)) == s
  {
    assert forall i :: 0 <= i < |s| ==> ToText(FromText(s))[i] as int == s[i] as int;
  }
}
