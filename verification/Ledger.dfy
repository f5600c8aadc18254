/**
 The transaction list of a payment and its balance per currency.
 */
module Ledger {
  import opened Arith
  import opened Wrappers
  import opened Decimal
  import opened DecimalText
  import opened Rounding

  datatype Status =
    | Uninitialized | Open | Pending | Paid | Settled | Authorized | Error
    | Cancelled | Failed | Chargeback | Refunded | RefundReversed

  datatype PaymentTransaction = PaymentTransaction(
    timestamp: int, amount: int, subunits: int, currency: string, status: Status)

  /** The transactions in one currency, in order. */
  function Of(txs: seq<PaymentTransaction>, currency: string): seq<PaymentTransaction> {
    if txs == [] then []
    else
      var last := txs[|txs| - 1];
      Of(txs[..|txs| - 1], currency) + if last.currency == currency then [last] else []
  }

  /** The largest number of subunits in a list. */
  function MaxScale(txs: seq<PaymentTransaction>): (m: int)
    requires |txs| > 0
    ensures forall t :: t in txs ==> t.subunits <= m
    ensures exists t :: t in txs && t.subunits == m
  {
    var last := txs[|txs| - 1];
    if |txs| == 1 then last.subunits
    else
      var init := txs[..|txs| - 1];
      var m := MaxScale(init);
      assert forall t :: t in txs ==> t in init || t == last;
      assert forall t :: t in init ==> t in txs;
      Max(m, last.subunits)
  }

  /** One amount as a multiple of 10^-scale. */
  function Worth(tx: PaymentTransaction, scale: int): int
    requires tx.subunits <= scale
  {
    tx.amount * Pow(10, scale - tx.subunits)
  }

  /** The sum of all amounts as a multiple of 10^-scale. */
  function TotalAt(txs: seq<PaymentTransaction>, scale: int): int
    requires forall t :: t in txs ==> t.subunits <= scale
  {
    if txs == [] then 0
    else
      var last := txs[|txs| - 1];
      TotalAt(txs[..|txs| - 1], scale) + Worth(last, scale)
  }

  /** The balance entry of a currency that occurs: unscaled value and scale. */
  function Entry(txs: seq<PaymentTransaction>): (int, int)
    requires |txs| > 0
  {
    (TotalAt(txs, MaxScale(txs)), MaxScale(txs))
  }

  /** The total of one transaction, and of two lists. */
  lemma {:induction false} TotalOfParts(tx: PaymentTransaction, a: seq<PaymentTransaction>,
                                        b: seq<PaymentTransaction>, scale: int)
    requires tx.subunits <= scale && forall t :: t in a || t in b ==> t.subunits <= scale
    ensures TotalAt([tx], scale) == tx.amount * Pow(10, scale - tx.subunits)
    ensures TotalAt(a + b, scale) == TotalAt(a, scale) + TotalAt(b, scale)
    decreases |b|
  {
    assert [tx][..0] == [];
    if b == [] {
      assert a + b == a;
    } else {
      var init, last := b[..|b| - 1], b[|b| - 1];
      assert (a + b)[..|a + b| - 1] == a + init;
      TotalOfParts(last, a, init, scale);
    }
  }

  /** A finer scale multiplies the total by the matching power of ten. */
  lemma {:induction false} TotalRescaled(txs: seq<PaymentTransaction>, from: int, to: int)
    requires from <= to && forall t :: t in txs ==> t.subunits <= from
    ensures TotalAt(txs, to) == TotalAt(txs, from) * Pow(10, to - from)
    decreases |txs|
  {
    if txs != [] {
      var init, last := txs[..|txs| - 1], txs[|txs| - 1];
      TotalRescaled(init, from, to);
      PowAdd(10, from - last.subunits, to - from);
      MulAssoc(last.amount, Pow(10, from - last.subunits), Pow(10, to - from));
      Spread(TotalAt(init, from), last.amount * Pow(10, from - last.subunits), Pow(10, to - from));
    }
  }

  lemma Spread(a: int, b: int, p: int)
    ensures (a + b) * p == a * p + b * p
  {
  }

  /** Aligned addition of one more transaction is the entry of the longer list. */
  lemma EntryExtended(txs: seq<PaymentTransaction>, t: PaymentTransaction)
    requires |txs| > 0
    ensures Entry(txs + [t]) == Increased(Entry(txs), t)
  {
    var s := MaxScale(txs);
    assert (txs + [t])[..|txs|] == txs;
    TotalRescaled(txs, s, Max(s, t.subunits));
  }

  /** Aligned addition of one amount to an entry. */
  function Increased(entry: (int, int), tx: PaymentTransaction): (int, int) {
    var m := Max(entry.1, tx.subunits);
    (entry.0 * Pow(10, m - entry.1) + tx.amount * Pow(10, m - tx.subunits), m)
  }

  function Recorded(entries: map<string, (int, int)>, tx: PaymentTransaction): map<string, (int, int)> {
    entries[tx.currency := if tx.currency in entries then Increased(entries[tx.currency], tx)
                           else (tx.amount, tx.subunits)]
  }

  /** The balance accumulated from the first transaction to the last. */
  function BalanceOf(txs: seq<PaymentTransaction>): map<string, (int, int)> {
    if txs == [] then map[] else Recorded(BalanceOf(txs[..|txs| - 1]), txs[|txs| - 1])
  }

  /** Distinct decimals that show the given entries. */
  ghost predicate Shows(b: map<string, Dec>, entries: map<string, (int, int)>)
    reads b.Values
  {
    && b.Keys == entries.Keys
    && (forall c :: c in b ==> b[c].unscaled == entries[c].0 && b[c].scale == entries[c].1)
    && (forall c, d :: c in b && d in b && c != d ==> b[c] != b[d])
  }

  /**
   `PaymentTransactionList.Balance`: one decimal per currency, added up in place.
   */
  method Balance(txs: seq<PaymentTransaction>) returns (b: map<string, Dec>)
    ensures Shows(b, BalanceOf(txs))
    ensures forall c :: c in b ==> fresh(b[c])
  {
    b := map[];
    var i := 0;
    while i < |txs|
      invariant 0 <= i <= |txs|
      invariant Shows(b, BalanceOf(txs[..i]))
      invariant forall c :: c in b ==> fresh(b[c])
    {
      var tx := txs[i];
      var am := new Dec(tx.amount, tx.subunits);
      assert txs[..i + 1][..i] == txs[..i];
      if tx.currency in b {
        b[tx.currency].Add(b[tx.currency], am);
      } else {
        b := b[tx.currency := am];
      }
      i := i + 1;
    }
    assert txs[..i] == txs;
  }

  /**
   The accumulated balance has exactly the currencies of the list, and each
   entry is the exact sum of that currency at its largest scale.
   */
  lemma {:induction false} BalanceIsTotal(txs: seq<PaymentTransaction>, c: string)
    ensures c in BalanceOf(txs) <==> Of(txs, c) != []
    ensures c in BalanceOf(txs) ==> BalanceOf(txs)[c] == Entry(Of(txs, c))
    decreases |txs|
  {
    if txs != [] {
      var init, last := txs[..|txs| - 1], txs[|txs| - 1];
      BalanceIsTotal(init, c);
      if last.currency == c {
        if Of(init, c) == [] {
          assert Of(txs, c) == [last];
          SingleEntry(last);
        } else {
          EntryExtended(Of(init, c), last);
        }
      } else {
        assert Of(txs, c) == Of(init, c);
      }
    }
  }

  lemma SingleEntry(tx: PaymentTransaction)
    ensures Entry([tx]) == (tx.amount, tx.subunits)
  {
    var s := tx.subunits;
    assert MaxScale([tx]) == s;
    assert TotalAt([tx][..0], s) == 0;
    assert Pow(10, s - s) == 1;
    assert Worth(tx, s) == tx.amount;
    assert TotalAt([tx], s) == TotalAt([tx][..0], s) + Worth(tx, s);
  }

  // --- independence of the order -------------------------------------------

  lemma {:induction false} OfCounts(txs: seq<PaymentTransaction>, c: string, t: PaymentTransaction)
    ensures multiset(Of(txs, c))[t] == if t.currency == c then multiset(txs)[t] else 0
    decreases |txs|
  {
    if txs != [] {
      OfCounts(txs[..|txs| - 1], c, t);
      assert txs == txs[..|txs| - 1] + [txs[|txs| - 1]];
    }
  }

  lemma TotalWithout(txs: seq<PaymentTransaction>, j: nat, scale: int)
    requires j < |txs| && forall t :: t in txs ==> t.subunits <= scale
    ensures TotalAt(txs, scale)
         == TotalAt(txs[..j] + txs[j + 1..], scale) + Worth(txs[j], scale)
  {
    var t, before, after := txs[j], txs[..j], txs[j + 1..];
    assert txs == before + ([t] + after);
    TotalOfParts(t, before, [t] + after, scale);
    TotalOfParts(t, [t], after, scale);
    TotalOfParts(t, before, after, scale);
  }

  lemma LastCounted(a: seq<PaymentTransaction>)
    requires a != []
    ensures a[|a| - 1] in multiset(a) && multiset(a[..|a| - 1]) == multiset(a) - multiset{a[|a| - 1]}
  {
    assert a == a[..|a| - 1] + [a[|a| - 1]];
  }

  lemma {:induction false} TotalPermuted(a: seq<PaymentTransaction>, b: seq<PaymentTransaction>, scale: int)
    requires multiset(a) == multiset(b) && forall t :: t in a ==> t.subunits <= scale
    ensures forall t :: t in b ==> t.subunits <= scale
    ensures TotalAt(a, scale) == TotalAt(b, scale)
    decreases |a|
  {
    forall t | t in b ensures t in a { assert t in multiset(b); }
    assert |a| == |multiset(a)| == |multiset(b)| == |b|;
    if a != [] {
      var init, last := a[..|a| - 1], a[|a| - 1];
      LastCounted(a);
      var j := Withdraw(b, last);
      TotalPermuted(init, b[..j] + b[j + 1..], scale);
      TotalWithout(b, j, scale);
    }
  }

  lemma Withdraw(b: seq<PaymentTransaction>, t: PaymentTransaction) returns (j: nat)
    requires t in multiset(b)
    ensures j < |b| && b[j] == t
    ensures multiset(b[..j] + b[j + 1..]) == multiset(b) - multiset{t}
  {
    j :| j < |b| && b[j] == t;
    assert b == b[..j] + [b[j]] + b[j + 1..];
  }

  /** The balance does not depend on the order of the transactions. */
  lemma OrderIrrelevant(a: seq<PaymentTransaction>, b: seq<PaymentTransaction>, c: string)
    requires multiset(a) == multiset(b)
    ensures Of(a, c) == [] <==> Of(b, c) == []
    ensures Of(a, c) != [] ==> Entry(Of(a, c)) == Entry(Of(b, c))
  {
    var x, y := Of(a, c), Of(b, c);
    assert multiset(x) == multiset(y) by {
      forall t ensures multiset(x)[t] == multiset(y)[t] {
        OfCounts(a, c, t);
        OfCounts(b, c, t);
      }
    }
    assert |x| == |multiset(x)| == |multiset(y)| == |y|;
    if x != [] {
      forall t ensures t in x <==> t in y {
        assert t in x <==> t in multiset(x);
        assert t in y <==> t in multiset(y);
      }
      MaxScalePermuted(x, y);
      TotalPermuted(x, y, MaxScale(x));
    }
  }

  lemma MaxScalePermuted(x: seq<PaymentTransaction>, y: seq<PaymentTransaction>)
    requires |x| > 0 && |y| > 0 && forall t :: t in x <==> t in y
    ensures MaxScale(x) == MaxScale(y)
  {
  }

  // --- the text form of a balance ------------------------------------------

  /** `Balance.FlatMap`. */
  method FlatMap(b: map<string, Dec>) returns (flat: map<string, string>)
    ensures flat == map c | c in b :: Text(b[c].unscaled, b[c].scale)
  {
    flat := map[];
    var todo := b.Keys;
    while todo != {}
      invariant todo <= b.Keys
      invariant flat == map c | c in b && c !in todo :: Text(b[c].unscaled, b[c].scale)
      decreases |todo|
    {
      var c :| c in todo;
      var s := String(b[c]);
      flat := flat[c := s];
      todo := todo - {c};
    }
  }

  /** `Balance.UnmarshalJSON` on the decoded object. */
  method Unflatten(m: map<string, string>) returns (b: Option<map<string, Dec>>)
    ensures b.Some? <==> forall c :: c in m ==> Numeral(m[c]).Some?
    ensures b.Some? ==> b.value.Keys == m.Keys
    ensures b.Some? ==> forall c :: c in m ==> Numeral(m[c]) == Some((b.value[c].unscaled, b.value[c].scale))
  {
    var bal: map<string, Dec> := map[];
    var todo := m.Keys;
    while todo != {}
      invariant todo <= m.Keys && bal.Keys == m.Keys - todo
      invariant forall c :: c in bal ==> fresh(bal[c]) && Numeral(m[c]) == Some((bal[c].unscaled, bal[c].scale))
      decreases |todo|
    {
      var k :| k in todo;
      var d := new Dec(0, 0);
      var ok := SetString(d, m[k]);
      if !ok { return None; }
      bal := bal[k := d];
      todo := todo - {k};
    }
    return Some(bal);
  }

  /** The entry that arrives when a printed entry is read again. */
  function Received(unscaled: int, scale: int): (int, int) {
    if scale >= 0 then (unscaled, scale) else (unscaled * Pow(10, 0 - scale), 0)
  }

  /**
   `Balance.MarshalJSON` and `UnmarshalJSON` on either end: every amount arrives,
   with its scale unless that was negative.
   */
  method Transmit(b: map<string, Dec>) returns (r: Option<map<string, Dec>>)
    ensures r.Some? && r.value.Keys == b.Keys
    ensures forall c :: c in b ==> (r.value[c].unscaled, r.value[c].scale) == Received(b[c].unscaled, b[c].scale)
  {
    var flat := FlatMap(b);
    TextsRead(map c | c in b :: (b[c].unscaled, b[c].scale), flat);
    r := Unflatten(flat);
  }

  lemma TextsRead(entries: map<string, (int, int)>, flat: map<string, string>)
    requires flat.Keys == entries.Keys && forall c :: c in entries ==> flat[c] == Text(entries[c].0, entries[c].1)
    ensures forall c :: c in entries ==> Numeral(flat[c]) == Some(Received(entries[c].0, entries[c].1))
  {
    forall c | c in entries ensures Numeral(flat[c]) == Some(Received(entries[c].0, entries[c].1)) {
      TextRead(entries[c].0, entries[c].1);
    }
  }

  lemma TextRead(unscaled: int, scale: int)
    ensures Numeral(Text(unscaled, scale)) == Some(Received(unscaled, scale))
  {
    ReadPrinted(unscaled, scale);
  }

  /** A whole number of units of the last place is its own half-up value, whatever the divisor. */
  lemma RoundingExactAmounts(amount: int, p: nat, n: int)
    requires p > 0 && RoundsTo(HalfUp, amount * p, p, n)
    ensures n == amount
  {
    RoundingUnique(HalfUp, amount * p, p, n, amount);
  }

  /**
   `Payment.DecimalRound`: half-up rounding of amount * 10^-subunits, at most
   half a unit of the last place away.
   */
  method DecimalRound(amount: int, subunits: int, scale: int) returns (d: Dec)
    ensures fresh(d) && d.scale == scale
    ensures scale >= subunits ==> d.unscaled == amount * Pow(10, scale - subunits)
    ensures scale < subunits ==> RoundsTo(HalfUp, amount, Pow(10, subunits - scale), d.unscaled)
    ensures scale < subunits ==>
            2 * Abs(d.unscaled * Pow(10, subunits - scale) - amount) <= Pow(10, subunits - scale)
  {
    d := new Dec(amount, subunits);
    var ok := d.Round(d, scale, HalfUp);
    if scale >= subunits {
      RoundingExactAmounts(amount * Pow(10, scale - subunits), 1, d.unscaled);
    }
  }
}
