/** Facts about sequences that several modules need. */
module Sequences {

  /** The two pieces of a cut sequence make it up again. */
  lemma Rejoined<T>(s: seq<T>, k: nat)
    requires k <= |s|
    ensures s == s[..k] + s[k..]
  {
  }

  lemma Joined<T>(a: seq<T>, b: seq<T>, c: seq<T>)
    ensures (a + b) + c == a + (b + c)
  {
  }
}
