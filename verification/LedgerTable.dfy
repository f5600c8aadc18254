/**
 The table of payment transactions: appended to by the handlers, read by greatest
 timestamp for the current status, and in order of time for a balance.
 */
module LedgerTable {
  import opened Wrappers
  import opened Ledger
  import opened Lifecycle

  type Transactions = seq<PaymentTransaction>

  datatype TableRow = TableRow(payment: int, tx: PaymentTransaction)

  /** The transactions of one payment, in the order in which they were committed. */
  function OfPayment(rows: seq<TableRow>, payment: int): Transactions {
    if rows == [] then []
    else
      var last := rows[|rows| - 1];
      OfPayment(rows[..|rows| - 1], payment) + if last.payment == payment then [last.tx] else []
  }

  function Until(txs: Transactions, time: int): (r: Transactions)
    ensures forall t :: t in r <==> t in txs && t.timestamp <= time
  {
    if txs == [] then []
    else
      var last := txs[|txs| - 1];
      assert forall t :: t in txs <==> t in txs[..|txs| - 1] || t == last;
      Until(txs[..|txs| - 1], time) + if last.timestamp <= time then [last] else []
  }

  ghost predicate InOrder(txs: Transactions) {
    forall i, j :: 0 <= i < j < |txs| ==> txs[i].timestamp <= txs[j].timestamp
  }

  // --- what the two queries mean together -------------------------------------------

  /** Balances of permuted lists agree in every currency. */
  lemma BalancePermuted(a: Transactions, b: Transactions)
    requires multiset(a) == multiset(b)
    ensures BalanceOf(a) == BalanceOf(b)
  {
    var x, y := BalanceOf(a), BalanceOf(b);
    forall c
      ensures c in x <==> c in y
      ensures c in x ==> x[c] == y[c]
    {
      BalanceIsTotal(a, c);
      BalanceIsTotal(b, c);
      OrderIrrelevant(a, b, c);
    }
  }

  lemma {:induction false} UntilAll(txs: Transactions, time: int)
    requires forall i :: 0 <= i < |txs| ==> txs[i].timestamp <= time
    ensures Until(txs, time) == txs
    decreases |txs|
  {
    if txs != [] {
      var n := |txs| - 1;
      UntilAll(txs[..n], time);
      assert txs == txs[..n] + [txs[n]];
      UntilAppended(txs[..n], txs[n], time);
    }
  }

  /**
   The list up to the current transaction ends with it, if times differ, and its
   balance is that of the whole ledger, in whatever order entries were committed.
   */
  lemma CurrentBalance(ledger: Transactions, listed: Transactions)
    requires ledger != [] && InOrder(listed)
    requires forall i, j :: 0 <= i < j < |ledger| ==> ledger[i].timestamp != ledger[j].timestamp
    requires multiset(listed) == multiset(Until(ledger, Latest(ledger).timestamp))
    ensures |listed| == |ledger| && listed[|listed| - 1] == Latest(ledger)
    ensures BalanceOf(listed) == BalanceOf(ledger)
  {
    var current := Latest(ledger);
    forall i | 0 <= i < |ledger| ensures ledger[i].timestamp <= current.timestamp {
      assert ledger[i] in ledger;
    }
    UntilAll(ledger, current.timestamp);
    BalancePermuted(listed, ledger);
    assert |listed| == |multiset(listed)| == |multiset(ledger)| == |ledger|;
    LastOfPermuted(ledger, listed, current);
  }

  lemma LastOfPermuted(ledger: Transactions, listed: Transactions, current: PaymentTransaction)
    requires multiset(listed) == multiset(ledger) && InOrder(listed) && current in ledger && listed != []
    requires forall i, j :: 0 <= i < j < |ledger| ==> ledger[i].timestamp != ledger[j].timestamp
    requires forall t :: t in ledger ==> t.timestamp <= current.timestamp
    ensures listed[|listed| - 1] == current
  {
    var last := listed[|listed| - 1];
    assert last in multiset(listed) && current in multiset(listed);
    assert last in ledger && current in listed;
    var i :| 0 <= i < |listed| && listed[i] == current;
    var j :| 0 <= j < |ledger| && ledger[j] == current;
    var k :| 0 <= k < |ledger| && ledger[k] == last;
  }

  // --- the table --------------------------------------------------------------------

  class Payment {
    const id: int
    var status: Status
    var transactionTimestamp: int

    constructor (id: int)
      ensures this.id == id && status == Uninitialized
    {
      this.id, status, transactionTimestamp := id, Uninitialized, 0;
    }
  }

  class Table {
    var rows: seq<TableRow>

    constructor ()
      ensures rows == []
    {
      rows := [];
    }

    /** `InsertPaymentTransactionTx`. */
    method Insert(payment: int, tx: PaymentTransaction)
      modifies this
      ensures forall id :: OfPayment(rows, id) == OfPayment(old(rows), id) + if id == payment then [tx] else []
    {
      rows := rows + [TableRow(payment, tx)];
      assert rows[..|rows| - 1] == old(rows);
    }

    /** The scan for the row with the greatest timestamp. */
    method Youngest(payment: int) returns (r: Option<PaymentTransaction>)
      ensures r == Newest(OfPayment(rows, payment))
    {
      r := None;
      for i := 0 to |rows|
        invariant r == Newest(OfPayment(rows[..i], payment))
      {
        OneRowMore(rows, i, payment);
        if rows[i].payment == payment {
          NewestAppended(OfPayment(rows[..i], payment), rows[i].tx);
          if r.None? || rows[i].tx.timestamp > r.value.timestamp {
            r := Some(rows[i].tx);
          }
        }
      }
      assert rows[..|rows|] == rows;
    }

    /** `PaymentTransactionCurrentTx`: the payment learns status and time of its current transaction. */
    method Current(p: Payment) returns (r: Option<PaymentTransaction>)
      modifies p
      ensures r == Newest(OfPayment(rows, p.id))
      ensures p.status == if r.Some? then CurrentStatus(OfPayment(rows, p.id)) else old(p.status)
      ensures p.transactionTimestamp == if r.Some? then r.value.timestamp else old(p.transactionTimestamp)
    {
      r := Youngest(p.id);
      if r.Some? {
        p.transactionTimestamp, p.status := r.value.timestamp, r.value.status;
      }
    }

    /** `PaymentTransactionsBeforeTimestampDB`: all transactions up to a time, earliest first. */
    method Before(payment: int, time: int) returns (r: Option<Transactions>)
      ensures r.None? <==> Until(OfPayment(rows, payment), time) == []
      ensures r.Some? ==> InOrder(r.value) && multiset(r.value) == multiset(Until(OfPayment(rows, payment), time))
    {
      var txs: Transactions := [];
      for i := 0 to |rows|
        invariant InOrder(txs) && multiset(txs) == multiset(Until(OfPayment(rows[..i], payment), time))
      {
        OneRowMore(rows, i, payment);
        if rows[i].payment == payment {
          UntilAppended(OfPayment(rows[..i], payment), rows[i].tx, time);
          if rows[i].tx.timestamp <= time {
            txs := Placed(txs, rows[i].tx);
          }
        }
      }
      assert rows[..|rows|] == rows;
      assert |txs| == |multiset(txs)| == |multiset(Until(OfPayment(rows, payment), time))|;
      r := if txs == [] then None else Some(txs);
    }
  }

  function Newest(txs: Transactions): Option<PaymentTransaction> {
    if txs == [] then None else Some(Latest(txs))
  }

  lemma OneRowMore(rows: seq<TableRow>, i: nat, payment: int)
    requires i < |rows|
    ensures var seen := OfPayment(rows[..i], payment);
            OfPayment(rows[..i + 1], payment) == if rows[i].payment == payment then seen + [rows[i].tx] else seen
  {
    assert rows[..i + 1][..i] == rows[..i];
  }

  lemma UntilAppended(txs: Transactions, t: PaymentTransaction, time: int)
    ensures Until(txs + [t], time) == if t.timestamp <= time then Until(txs, time) + [t] else Until(txs, time)
  {
    assert (txs + [t])[..|txs|] == txs;
  }

  lemma NewestAppended(txs: Transactions, t: PaymentTransaction)
    ensures Newest(txs + [t])
         == Some(if txs == [] || t.timestamp > Latest(txs).timestamp then t else Latest(txs))
  {
    assert (txs + [t])[..|txs|] == txs;
  }

  lemma Inserted(txs: Transactions, k: nat, t: PaymentTransaction)
    requires InOrder(txs) && k <= |txs|
    requires k > 0 ==> txs[k - 1].timestamp <= t.timestamp
    requires k < |txs| ==> t.timestamp <= txs[k].timestamp
    ensures InOrder(txs[..k] + [t] + txs[k..])
  {
    var r := txs[..k] + [t] + txs[k..];
    forall i, j | 0 <= i < j < |r| ensures r[i].timestamp <= r[j].timestamp {
      var a, b := if i < k then i else i - 1, if j < k then j else j - 1;
      if i == k {
        assert txs[k].timestamp <= txs[b].timestamp;
      } else if j == k {
        assert txs[a].timestamp <= txs[k - 1].timestamp;
      } else {
        assert r[i] == txs[a] && r[j] == txs[b];
      }
    }
  }

  lemma InsertedCounts(txs: Transactions, k: nat, t: PaymentTransaction)
    requires k <= |txs|
    ensures multiset(txs[..k] + [t] + txs[k..]) == multiset(txs) + multiset{t}
  {
    assert txs == txs[..k] + txs[k..];
  }

  /** A transaction put behind all that are not younger. */
  method Placed(txs: Transactions, t: PaymentTransaction) returns (r: Transactions)
    requires InOrder(txs)
    ensures InOrder(r) && multiset(r) == multiset(txs) + multiset{t}
  {
    var k := |txs|;
    while k > 0 && txs[k - 1].timestamp > t.timestamp
      invariant 0 <= k <= |txs| && (k < |txs| ==> txs[k].timestamp > t.timestamp)
    {
      k := k - 1;
    }
    Inserted(txs, k, t);
    InsertedCounts(txs, k, t);
    r := txs[..k] + [t] + txs[k..];
  }
}
