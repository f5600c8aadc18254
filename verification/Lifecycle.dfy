/**
 The life of one payment: the web handler, the two provider drivers and their
 background requests, all appending to the transaction ledger and to the PayPal
 log. An event is one serialisable database transaction, or the step of a
 goroutine between two of them; events may occur in any order and any number,
 and an event whose guard fails writes nothing.
 */
module Lifecycle {
  import opened Arith
  import opened Ledger

  datatype Provider = PayPal | FritzPay

  /** What is fixed when the payment is created. */
  datatype Payment = Payment(amount: nat, subunits: int, currency: string, provider: Provider)

  datatype Kind = CreatePayment | CreatePaymentResponse | ErrorReported | ExecutePayment | ExecutePaymentResponse

  datatype Intent = Sale | Authorize | OtherIntent

  datatype Row = Row(timestamp: int, kind: Kind, intent: Intent)

  /** A running goroutine of the PayPal driver. */
  datatype Job =
    | Creating                                  // doInit: create request posted
    | Executing(intent: Intent, status: Status) // executePayment, with the status its caller read
    | Settling(tx: PaymentTransaction)          // intent granted, execute request posted

  datatype State = State(
    clock: int,
    ledger: seq<PaymentTransaction>,
    rows: seq<Row>,
    jobs: multiset<Job>,
    served: bool)

  datatype CreateOutcome = CreateLost | CreateFailed | Created(intent: Intent) | NotCreated(intent: Intent)

  datatype SettleOutcome = SettleLost | SettleFailed | SettleCommitted

  datatype Event =
    | VisitPaymentPage
    | FritzPayInit
    | PayPalInit
    | FinishCreate(created: CreateOutcome)
    | ReturnFromPayPal
    | AskIntent(asking: Job, granted: bool, reported: bool)
    | FinishExecute(tx: PaymentTransaction, settled: SettleOutcome)
    | CancelAtPayPal
    | Idle

  // --- reading the logs ------------------------------------------------------

  /** The transaction with the greatest timestamp. */
  function Latest(ledger: seq<PaymentTransaction>): (t: PaymentTransaction)
    requires ledger != []
    ensures t in ledger && forall u :: u in ledger ==> u.timestamp <= t.timestamp
  {
    var last := ledger[|ledger| - 1];
    if |ledger| == 1 then last
    else
      var init := ledger[..|ledger| - 1];
      var t := Latest(init);
      assert forall u :: u in ledger ==> u in init || u == last;
      if last.timestamp > t.timestamp then last else t
  }

  function CurrentStatus(ledger: seq<PaymentTransaction>): Status {
    if ledger == [] then Uninitialized else Latest(ledger).status
  }

  /** The PayPal row with the greatest timestamp. */
  function LatestRow(rows: seq<Row>): (r: Row)
    requires rows != []
    ensures r in rows && forall q :: q in rows ==> q.timestamp <= r.timestamp
  {
    var last := rows[|rows| - 1];
    if |rows| == 1 then last
    else
      var init := rows[..|rows| - 1];
      var r := LatestRow(init);
      assert forall q :: q in rows ==> q in init || q == last;
      if last.timestamp > r.timestamp then last else r
  }

  function Kinds(rows: seq<Row>): (k: seq<Kind>)
    ensures |k| == |rows| && forall i :: 0 <= i < |rows| ==> k[i] == rows[i].kind
  {
    seq(|rows|, i requires 0 <= i < |rows| => rows[i].kind)
  }

  // --- the steps -------------------------------------------------------------

  /** `Payment.NewTransaction` at the current time, with the intent's amount. */
  function NewTransaction(p: Payment, s: State, status: Status): PaymentTransaction {
    var amount := match status
      case Open => 0 - p.amount
      case Paid => p.amount
      case _ => 0;
    PaymentTransaction(s.clock, amount, p.subunits, p.currency, status)
  }

  function Appended(s: State, tx: PaymentTransaction): State { s.(ledger := s.ledger + [tx]) }

  function Logged(s: State, kind: Kind, intent: Intent): State {
    s.(rows := s.rows + [Row(s.clock, kind, intent)], clock := s.clock + 1)
  }

  /** How the goroutine of the execute request ends. */
  function Executed(base: State, tx: PaymentTransaction, outcome: SettleOutcome): State {
    match outcome
    case SettleLost => base
    case SettleFailed => Logged(base, ErrorReported, OtherIntent)
    case SettleCommitted => Logged(Appended(base, tx), ExecutePaymentResponse, OtherIntent)
  }

  /** The entry that an execute job asks for: a sale is paid, anything else authorized. */
  function GrantedStatus(j: Job): Status
    requires j.Executing?
  {
    if j.intent == Sale then Paid else Authorized
  }

  /** How the goroutine of the create request ends. */
  function Concluded(base: State, outcome: CreateOutcome): State {
    match outcome
    case CreateLost => base
    case CreateFailed => Logged(base, ErrorReported, OtherIntent)
    case Created(intent) => Logged(base, CreatePaymentResponse, intent)
    case NotCreated(intent) => Logged(Logged(base, CreatePaymentResponse, intent), ErrorReported, intent)
  }

  function Effect(p: Payment, s: State, e: Event): State {
    match e
    case VisitPaymentPage =>
      var s' := if CurrentStatus(s.ledger) == Uninitialized then Appended(s, NewTransaction(p, s, Open)) else s;
      s'.(served := true)
    case FritzPayInit =>
      if s.served && p.provider == FritzPay && CurrentStatus(s.ledger) != Pending
      then Appended(s, NewTransaction(p, s, Pending)) else s
    case PayPalInit =>
      if s.served && p.provider == PayPal && s.rows == []
      then Logged(s, CreatePayment, OtherIntent).(jobs := s.jobs + multiset{Creating}) else s
    case FinishCreate(outcome) =>
      if Creating !in s.jobs then s
      else
        Concluded(s.(jobs := s.jobs - multiset{Creating}), outcome)
    case ReturnFromPayPal =>
      if s.rows != [] && LatestRow(s.rows).kind == CreatePaymentResponse then
        var job := Executing(LatestRow(s.rows).intent, CurrentStatus(s.ledger));
        Logged(s, ExecutePayment, OtherIntent).(jobs := s.jobs + multiset{job})
      else s
    case AskIntent(job, granted, reported) =>
      if job !in s.jobs || !job.Executing? then s
      else
        var s' := s.(jobs := s.jobs - multiset{job});
        if granted && job.status == Open && job.intent != OtherIntent then
          var tx := NewTransaction(p, s, GrantedStatus(job));
          s'.(jobs := s'.jobs + multiset{Settling(tx)})
        else if reported && job.intent != OtherIntent then Logged(s', ErrorReported, OtherIntent)
        else s'
    case FinishExecute(tx, outcome) =>
      if Settling(tx) !in s.jobs then s
      else
        Executed(s.(jobs := s.jobs - multiset{Settling(tx)}), tx, outcome)
    case CancelAtPayPal =>
      if s.rows != [] && CurrentStatus(s.ledger) == Open
      then Appended(s, NewTransaction(p, s, Cancelled)) else s
    case Idle => s
  }

  /** Time passes with every event. */
  function Next(p: Payment, s: State, e: Event): State {
    var s' := Effect(p, s, e);
    s'.(clock := s'.clock + 1)
  }

  const NEW_PAYMENT: State := State(0, [], [], multiset{}, false)

  /** The state after a run of a newly created payment. */
  function After(p: Payment, run: seq<Event>): State {
    if run == [] then NEW_PAYMENT else Next(p, After(p, run[..|run| - 1]), run[|run| - 1])
  }

  // --- the invariant ---------------------------------------------------------

  predicate IsEntry(p: Payment, t: PaymentTransaction, status: Status) {
    && t.status == status && t.currency == p.currency && t.subunits == p.subunits
    && t.amount == match status { case Open => 0 - p.amount case Paid => p.amount case _ => 0 }
  }

  predicate IsSettled(p: Payment, t: PaymentTransaction) { IsEntry(p, t, Paid) || IsEntry(p, t, Authorized) }

  /** The ledgers that occur, in the order in which entries were committed. */
  predicate LedgerShape(p: Payment, l: seq<PaymentTransaction>) {
    && |l| <= 3
    && (|l| >= 1 ==> IsEntry(p, l[0], Open))
    && (forall i :: 1 <= i < |l| ==> l[0].timestamp < l[i].timestamp)
    && (|l| == 2 ==> if p.provider == FritzPay then IsEntry(p, l[1], Pending)
                     else IsEntry(p, l[1], Cancelled) || IsSettled(p, l[1]))
    && (|l| == 3 ==> p.provider == PayPal && IsEntry(p, l[1], Cancelled) && IsSettled(p, l[2]))
  }

  predicate Settlement(p: Payment, l: seq<PaymentTransaction>) {
    |l| >= 2 && IsSettled(p, l[|l| - 1])
  }

  /** The PayPal logs that occur, and the goroutines that may run beside them. */
  ghost predicate LogShape(p: Payment, s: State) {
    var k := Kinds(s.rows);
    || (k == [] && s.jobs == multiset{})
    || (k == [CreatePayment] && (s.jobs == multiset{} || s.jobs == multiset{Creating}))
    || (k == [CreatePayment, ErrorReported] && s.jobs == multiset{})
    || (k == [CreatePayment, CreatePaymentResponse] && s.jobs == multiset{})
    || (k == [CreatePayment, CreatePaymentResponse, ErrorReported] && s.jobs == multiset{})
    || (k == [CreatePayment, CreatePaymentResponse, ExecutePayment]
        && (s.jobs == multiset{} || Running(p, s)))
    || (k == [CreatePayment, CreatePaymentResponse, ExecutePayment, ErrorReported] && s.jobs == multiset{})
    || (k == [CreatePayment, CreatePaymentResponse, ExecutePayment, ExecutePaymentResponse] && s.jobs == multiset{})
  }

  /** One execute job, and nothing else. */
  ghost predicate Running(p: Payment, s: State) {
    exists j :: s.jobs == multiset{j} && ExecuteJob(p, s, j)
  }

  predicate ExecuteJob(p: Payment, s: State, j: Job) {
    match j
    case Creating => false
    case Executing(_, _) => true
    case Settling(tx) =>
      && IsSettled(p, tx) && tx.timestamp < s.clock
      && |s.ledger| > 0 && s.ledger[0].timestamp < tx.timestamp
      && (forall t :: t in s.ledger ==> t.timestamp != tx.timestamp)
  }

  ghost predicate Invariant(p: Payment, s: State) {
    && LedgerShape(p, s.ledger)
    && LogShape(p, s)
    && (forall t :: t in s.ledger ==> t.timestamp < s.clock)
    && (forall i, j :: 0 <= i < j < |s.rows| ==> s.rows[i].timestamp < s.rows[j].timestamp)
    && (forall r :: r in s.rows ==> r.timestamp < s.clock)
    && (s.served ==> s.ledger != [])
    && (s.rows != [] ==> s.served && p.provider == PayPal)
    && (Settlement(p, s.ledger) <==> |s.rows| == 4 && s.rows[3].kind == ExecutePaymentResponse)
    && (forall i, j :: 0 <= i < j < |s.ledger| ==> s.ledger[i].timestamp != s.ledger[j].timestamp)
  }

  lemma LatestRowIsLast(rows: seq<Row>)
    requires rows != [] && forall i, j :: 0 <= i < j < |rows| ==> rows[i].timestamp < rows[j].timestamp
    ensures LatestRow(rows) == rows[|rows| - 1]
  {
    assert rows[|rows| - 1] in rows;
  }

  /** After a cancellation or a settlement the payment never reads as open again. */
  lemma OpenOnlyAlone(p: Payment, l: seq<PaymentTransaction>)
    requires LedgerShape(p, l)
    ensures CurrentStatus(l) == Open <==> |l| == 1
    ensures CurrentStatus(l) == Uninitialized <==> l == []
  {
    if |l| > 1 { assert l[1] in l; }
  }

  lemma LoggedKinds(s: State, kind: Kind, intent: Intent)
    ensures Kinds(Logged(s, kind, intent).rows) == Kinds(s.rows) + [kind]
  {
  }

  /** Time alone changes nothing. */
  lemma TickKeeps(p: Payment, s: State)
    requires Invariant(p, s)
    ensures Invariant(p, s.(clock := s.clock + 1))
  {
    KeepsLog(p, s, s.(clock := s.clock + 1));
  }

  lemma OpenKeeps(p: Payment, s: State, s': State)
    requires Invariant(p, s) && s.ledger == []
    requires s' == Appended(s, NewTransaction(p, s, Open)).(served := true, clock := s.clock + 1)
    ensures Invariant(p, s')
  {
    KeepsLog(p, s, s');
  }

  lemma ServedKeeps(p: Payment, s: State)
    requires Invariant(p, s) && s.ledger != []
    ensures Invariant(p, s.(served := true, clock := s.clock + 1))
  {
    KeepsLog(p, s, s.(served := true, clock := s.clock + 1));
  }

  lemma VisitKeeps(p: Payment, s: State)
    requires Invariant(p, s)
    ensures Invariant(p, Next(p, s, VisitPaymentPage))
  {
    OpenOnlyAlone(p, s.ledger);
    if s.ledger == [] {
      OpenKeeps(p, s, Next(p, s, VisitPaymentPage));
    } else {
      ServedKeeps(p, s);
      assert Next(p, s, VisitPaymentPage) == s.(served := true, clock := s.clock + 1);
    }
  }

  /** Nothing happened in the PayPal log, and the ledger kept its entries. */
  lemma KeepsLog(p: Payment, s: State, s': State)
    requires LogShape(p, s) && s'.rows == s.rows && s'.jobs == s.jobs && s.clock <= s'.clock
    requires s.ledger <= s'.ledger
    requires forall i :: |s.ledger| <= i < |s'.ledger| ==> s'.ledger[i].timestamp == s.clock
    ensures LogShape(p, s')
  {
    if Running(p, s) {
      var j :| s.jobs == multiset{j} && ExecuteJob(p, s, j);
      if j.Settling? {
        forall t | t in s'.ledger ensures t.timestamp != j.tx.timestamp {
          var i :| 0 <= i < |s'.ledger| && s'.ledger[i] == t;
          if i < |s.ledger| { assert s.ledger[i] == t; }
        }
      }
      assert ExecuteJob(p, s', j);
    }
  }

  lemma AppendKeeps(p: Payment, s: State, s': State, status: Status)
    requires Invariant(p, s) && s' == Appended(s, NewTransaction(p, s, status)).(clock := s.clock + 1)
    requires |s.ledger| == 1 && (if p.provider == FritzPay then status == Pending else status == Cancelled)
    ensures Invariant(p, s')
  {
    KeepsLog(p, s, s');
  }

  lemma FritzPayKeeps(p: Payment, s: State)
    requires Invariant(p, s)
    ensures Invariant(p, Next(p, s, FritzPayInit))
  {
    OpenOnlyAlone(p, s.ledger);
    var s' := Next(p, s, FritzPayInit);
    if s'.ledger == s.ledger {
      assert s' == s.(clock := s.clock + 1);
      TickKeeps(p, s);
    } else {
      AppendKeeps(p, s, s', Pending);
    }
  }

  lemma CancelKeeps(p: Payment, s: State)
    requires Invariant(p, s)
    ensures Invariant(p, Next(p, s, CancelAtPayPal))
  {
    OpenOnlyAlone(p, s.ledger);
    var s' := Next(p, s, CancelAtPayPal);
    if s'.ledger == s.ledger {
      assert s' == s.(clock := s.clock + 1);
      TickKeeps(p, s);
    } else {
      AppendKeeps(p, s, s', Cancelled);
    }
  }

  lemma PayPalInitKeeps(p: Payment, s: State)
    requires Invariant(p, s)
    ensures Invariant(p, Next(p, s, PayPalInit))
  {
    var s' := Next(p, s, PayPalInit);
    if s'.rows == s.rows {
      assert s' == s.(clock := s.clock + 1);
      TickKeeps(p, s);
    } else {
      RequestLogged(p, s, s');
    }
  }

  lemma RequestLogged(p: Payment, s: State, s': State)
    requires Invariant(p, s) && s.served && p.provider == PayPal && s.rows == []
    requires s' == s.(rows := [Row(s.clock, CreatePayment, OtherIntent)], clock := s.clock + 2,
                      jobs := s.jobs + multiset{Creating})
    ensures Invariant(p, s')
  {
    assert Kinds(s'.rows) == [CreatePayment];
    assert s'.jobs == multiset{Creating};
  }

  /** While the create request is out, its row is the only one. */
  lemma OnlyCreating(p: Payment, s: State)
    requires LogShape(p, s) && Creating in s.jobs
    ensures Kinds(s.rows) == [CreatePayment] && s.jobs == multiset{Creating}
  {
  }

  lemma ConcludedKeeps(p: Payment, s: State, outcome: CreateOutcome)
    requires Invariant(p, s) && Kinds(s.rows) == [CreatePayment]
    ensures var s' := Concluded(s.(jobs := multiset{}), outcome); Invariant(p, s'.(clock := s'.clock + 1))
  {
    var s' := Concluded(s.(jobs := multiset{}), outcome);
    assert Kinds(s'.rows) == [CreatePayment] + match outcome
                                               case CreateLost => []
                                               case CreateFailed => [ErrorReported]
                                               case Created(_) => [CreatePaymentResponse]
                                               case NotCreated(_) => [CreatePaymentResponse, ErrorReported];
  }

  lemma FinishCreateKeeps(p: Payment, s: State, outcome: CreateOutcome)
    requires Invariant(p, s)
    ensures Invariant(p, Next(p, s, FinishCreate(outcome)))
  {
    if Creating !in s.jobs {
      assert Next(p, s, FinishCreate(outcome)) == s.(clock := s.clock + 1);
      TickKeeps(p, s);
    } else {
      OnlyCreating(p, s);
      ConcludedKeeps(p, s, outcome);
      assert s.jobs - multiset{Creating} == multiset{};
      var s' := Concluded(s.(jobs := multiset{}), outcome);
      assert Next(p, s, FinishCreate(outcome)) == s'.(clock := s'.clock + 1);
    }
  }

  /** When the create response is the last row, nothing runs. */
  lemma ResponseLast(p: Payment, s: State)
    requires LogShape(p, s) && s.rows != [] && s.rows[|s.rows| - 1].kind == CreatePaymentResponse
    ensures Kinds(s.rows) == [CreatePayment, CreatePaymentResponse] && s.jobs == multiset{}
  {
    assert Kinds(s.rows)[|s.rows| - 1] == CreatePaymentResponse;
  }

  lemma ExecuteLogged(p: Payment, s: State, job: Job)
    requires Invariant(p, s) && job.Executing?
    requires Kinds(s.rows) == [CreatePayment, CreatePaymentResponse] && s.jobs == multiset{}
    ensures var s' := Logged(s, ExecutePayment, OtherIntent).(jobs := multiset{job});
            Invariant(p, s'.(clock := s'.clock + 1))
  {
    LoggedKinds(s, ExecutePayment, OtherIntent);
    var s' := Logged(s, ExecutePayment, OtherIntent).(jobs := multiset{job});
    var s'' := s'.(clock := s'.clock + 1);
    assert Kinds(s''.rows) == [CreatePayment, CreatePaymentResponse, ExecutePayment];
    assert ExecuteJob(p, s'', job);
    assert Running(p, s'');
  }

  lemma ReturnKeeps(p: Payment, s: State)
    requires Invariant(p, s)
    ensures Invariant(p, Next(p, s, ReturnFromPayPal))
  {
    var s' := Next(p, s, ReturnFromPayPal);
    if s'.rows == s.rows {
      assert s' == s.(clock := s.clock + 1);
      TickKeeps(p, s);
    } else {
      LatestRowIsLast(s.rows);
      ResponseLast(p, s);
      var job := Executing(LatestRow(s.rows).intent, CurrentStatus(s.ledger));
      assert s.jobs + multiset{job} == multiset{job};
      ExecuteLogged(p, s, job);
      var logged := Logged(s, ExecutePayment, OtherIntent).(jobs := multiset{job});
      assert s' == logged.(clock := logged.clock + 1);
    }
  }

  /** A running execute job is the only one, right after the execute request. */
  lemma OnlyJob(p: Payment, s: State, job: Job)
    requires Invariant(p, s) && job in s.jobs && job != Creating
    ensures Kinds(s.rows) == [CreatePayment, CreatePaymentResponse, ExecutePayment]
    ensures s.jobs == multiset{job} && ExecuteJob(p, s, job)
  {
  }

  lemma GrantKeeps(p: Payment, s: State, job: Job)
    requires Invariant(p, s) && job in s.jobs && job.Executing?
    ensures var tx := NewTransaction(p, s, GrantedStatus(job));
            Invariant(p, s.(jobs := multiset{Settling(tx)}, clock := s.clock + 1))
  {
    var tx := NewTransaction(p, s, GrantedStatus(job));
    var s' := s.(jobs := multiset{Settling(tx)}, clock := s.clock + 1);
    OnlyJob(p, s, job);
    assert Kinds(s'.rows) == Kinds(s.rows);
    assert s'.ledger[0] in s.ledger;
    assert ExecuteJob(p, s', Settling(tx));
    assert Running(p, s');
  }

  lemma AskGrantedKeeps(p: Payment, s: State, job: Job, reported: bool)
    requires Invariant(p, s) && job in s.jobs && job.Executing? && CanSettle(job)
    ensures Invariant(p, Next(p, s, AskIntent(job, true, reported)))
  {
    OnlyJob(p, s, job);
    var tx := NewTransaction(p, s, GrantedStatus(job));
    assert s.jobs - multiset{job} + multiset{Settling(tx)} == multiset{Settling(tx)};
    GrantKeeps(p, s, job);
    assert Next(p, s, AskIntent(job, true, reported)) == s.(jobs := multiset{Settling(tx)}, clock := s.clock + 1);
  }

  lemma AskRefusedKeeps(p: Payment, s: State, job: Job, granted: bool, reported: bool)
    requires Invariant(p, s) && job in s.jobs && job.Executing? && !(granted && CanSettle(job))
    ensures Invariant(p, Next(p, s, AskIntent(job, granted, reported)))
  {
    var s' := Next(p, s, AskIntent(job, granted, reported));
    OnlyJob(p, s, job);
    assert s.jobs - multiset{job} == multiset{};
    var base := s.(jobs := multiset{});
    if reported && job.intent != OtherIntent {
      var logged := Logged(base, ErrorReported, OtherIntent);
      assert s' == logged.(clock := logged.clock + 1);
      NotYetSettled(p, s);
      ClosedKeeps(p, s, base, ErrorReported);
    } else {
      assert s' == base.(clock := s.clock + 1);
      LostKeeps(p, s, base);
    }
  }

  lemma AskKeeps(p: Payment, s: State, job: Job, granted: bool, reported: bool)
    requires Invariant(p, s)
    ensures Invariant(p, Next(p, s, AskIntent(job, granted, reported)))
  {
    if job !in s.jobs || !job.Executing? {
      assert Next(p, s, AskIntent(job, granted, reported)) == s.(clock := s.clock + 1);
      TickKeeps(p, s);
    } else if granted && CanSettle(job) {
      AskGrantedKeeps(p, s, job, reported);
    } else {
      AskRefusedKeeps(p, s, job, granted, reported);
    }
  }

  lemma NotYetSettled(p: Payment, s: State)
    requires Invariant(p, s) && |s.rows| == 3
    ensures !Settlement(p, s.ledger) && s.ledger != []
  {
  }

  /** The settlement closes a ledger that was opened, and perhaps cancelled. */
  lemma SettlementFits(p: Payment, s: State, tx: PaymentTransaction)
    requires Invariant(p, s) && ExecuteJob(p, s, Settling(tx)) && p.provider == PayPal && |s.rows| == 3
    ensures LedgerShape(p, s.ledger + [tx]) && Settlement(p, s.ledger + [tx]) && !Settlement(p, s.ledger)
    ensures forall i, j :: 0 <= i < j < |s.ledger + [tx]| ==>
              (s.ledger + [tx])[i].timestamp != (s.ledger + [tx])[j].timestamp
  {
    forall i | 0 <= i < |s.ledger| ensures s.ledger[i].timestamp != tx.timestamp {
      assert s.ledger[i] in s.ledger;
    }
  }

  lemma EndKeeps(p: Payment, s: State, tx: PaymentTransaction, outcome: SettleOutcome)
    requires Invariant(p, s) && Settling(tx) in s.jobs
    ensures var s' := Executed(s.(jobs := multiset{}), tx, outcome); Invariant(p, s'.(clock := s'.clock + 1))
  {
    OnlyJob(p, s, Settling(tx));
    SettlementFits(p, s, tx);
    var base := s.(jobs := multiset{});
    match outcome {
      case SettleLost => LostKeeps(p, s, base);
      case SettleFailed => ClosedKeeps(p, s, base, ErrorReported);
      case SettleCommitted => ClosedKeeps(p, s, Appended(base, tx), ExecutePaymentResponse);
    }
  }

  lemma FinishExecuteKeeps(p: Payment, s: State, tx: PaymentTransaction, outcome: SettleOutcome)
    requires Invariant(p, s)
    ensures Invariant(p, Next(p, s, FinishExecute(tx, outcome)))
  {
    if Settling(tx) !in s.jobs {
      assert Next(p, s, FinishExecute(tx, outcome)) == s.(clock := s.clock + 1);
      TickKeeps(p, s);
    } else {
      EndKeeps(p, s, tx, outcome);
      OnlyJob(p, s, Settling(tx));
      assert s.jobs - multiset{Settling(tx)} == multiset{};
      var s' := Executed(s.(jobs := multiset{}), tx, outcome);
      assert Next(p, s, FinishExecute(tx, outcome)) == s'.(clock := s'.clock + 1);
    }
  }

  /** A goroutine that ends without a trace. */
  lemma LostKeeps(p: Payment, s: State, base: State)
    requires Invariant(p, s) && Kinds(s.rows) == [CreatePayment, CreatePaymentResponse, ExecutePayment]
    requires base == s.(jobs := multiset{})
    ensures Invariant(p, base.(clock := s.clock + 1))
  {
    assert Kinds(base.rows) == Kinds(s.rows);
  }

  /** The last row of the log, with or without the ledger entry it stands for. */
  lemma ClosedKeeps(p: Payment, s: State, base: State, kind: Kind)
    requires Invariant(p, s) && Kinds(s.rows) == [CreatePayment, CreatePaymentResponse, ExecutePayment]
    requires base.rows == s.rows && base.clock == s.clock && base.served == s.served && base.jobs == multiset{}
    requires LedgerShape(p, base.ledger) && base.ledger != []
    requires forall t :: t in base.ledger ==> t.timestamp < s.clock
    requires forall i, j :: 0 <= i < j < |base.ledger| ==> base.ledger[i].timestamp != base.ledger[j].timestamp
    requires kind == ErrorReported || kind == ExecutePaymentResponse
    requires Settlement(p, base.ledger) <==> kind == ExecutePaymentResponse
    ensures var s' := Logged(base, kind, OtherIntent);
            Invariant(p, s'.(clock := s'.clock + 1))
  {
    LoggedKinds(base, kind, OtherIntent);
    var s' := Logged(base, kind, OtherIntent);
    assert Kinds(s'.rows) == [CreatePayment, CreatePaymentResponse, ExecutePayment, kind];
    assert s'.rows[3].kind == kind;
  }

  lemma StepKeeps(p: Payment, s: State, e: Event)
    requires Invariant(p, s)
    ensures Invariant(p, Next(p, s, e))
  {
    match e
    case VisitPaymentPage => VisitKeeps(p, s);
    case FritzPayInit => FritzPayKeeps(p, s);
    case PayPalInit => PayPalInitKeeps(p, s);
    case FinishCreate(outcome) => FinishCreateKeeps(p, s, outcome);
    case ReturnFromPayPal => ReturnKeeps(p, s);
    case AskIntent(job, granted, reported) => AskKeeps(p, s, job, granted, reported);
    case FinishExecute(tx, outcome) => FinishExecuteKeeps(p, s, tx, outcome);
    case CancelAtPayPal => CancelKeeps(p, s);
    case Idle => TickKeeps(p, s);
  }

  lemma {:induction false} RunKeeps(p: Payment, run: seq<Event>)
    ensures Invariant(p, After(p, run))
    decreases |run|
  {
    if run == [] {
      assert Kinds([]) == [];
    } else {
      RunKeeps(p, run[..|run| - 1]);
      StepKeeps(p, After(p, run[..|run| - 1]), run[|run| - 1]);
    }
  }

  // --- what holds in every run -----------------------------------------------

  function CountStatus(l: seq<PaymentTransaction>, status: Status): nat {
    if l == [] then 0
    else CountStatus(l[..|l| - 1], status) + if l[|l| - 1].status == status then 1 else 0
  }

  function One(t: PaymentTransaction, status: Status): nat { if t.status == status then 1 else 0 }

  lemma CountUpToThree(l: seq<PaymentTransaction>, status: Status)
    requires |l| <= 3
    ensures |l| == 1 ==> CountStatus(l, status) == One(l[0], status)
    ensures |l| == 2 ==> CountStatus(l, status) == One(l[0], status) + One(l[1], status)
    ensures |l| == 3 ==> CountStatus(l, status) == One(l[0], status) + One(l[1], status) + One(l[2], status)
  {
    Unfold(l);
  }

  lemma Unfold(l: seq<PaymentTransaction>)
    ensures |l| >= 2 ==> l[..|l| - 1][..|l| - 2] == l[..|l| - 2]
    ensures |l| >= 1 ==> l[..1] == [l[0]] && l[..0] == []
    ensures |l| >= 2 ==> l[..|l| - 1][|l| - 2] == l[|l| - 2]
  {
  }

  /**
   Over every interleaving each PayPal request is recorded at most once, and a
   paid or authorized ledger entry exists exactly when the execute response does.
   */
  lemma AtMostOneSettlement(p: Payment, run: seq<Event>)
    ensures var s := After(p, run); var k := multiset(Kinds(s.rows));
            && k[CreatePayment] <= 1 && k[CreatePaymentResponse] <= 1
            && k[ExecutePayment] <= 1 && k[ExecutePaymentResponse] <= 1
            && CountStatus(s.ledger, Paid) + CountStatus(s.ledger, Authorized) == k[ExecutePaymentResponse]
            && |s.jobs| <= 1
  {
    RunKeeps(p, run);
    var s := After(p, run);
    SettledCount(p, s.ledger);
    KindsCounted(p, s);
  }

  lemma SettledCount(p: Payment, l: seq<PaymentTransaction>)
    requires LedgerShape(p, l)
    ensures CountStatus(l, Paid) + CountStatus(l, Authorized) == if Settlement(p, l) then 1 else 0
  {
    CountUpToThree(l, Paid);
    CountUpToThree(l, Authorized);
  }

  ghost predicate LogKinds(k: seq<Kind>) {
    || k == [] || k == [CreatePayment] || k == [CreatePayment, ErrorReported]
    || k == [CreatePayment, CreatePaymentResponse] || k == [CreatePayment, CreatePaymentResponse, ErrorReported]
    || k == [CreatePayment, CreatePaymentResponse, ExecutePayment]
    || k == [CreatePayment, CreatePaymentResponse, ExecutePayment, ErrorReported]
    || k == [CreatePayment, CreatePaymentResponse, ExecutePayment, ExecutePaymentResponse]
  }

  lemma ShapeKinds(p: Payment, s: State)
    requires LogShape(p, s)
    ensures LogKinds(Kinds(s.rows)) && |s.jobs| <= 1
  {
  }

  lemma KindsOnce(k: seq<Kind>)
    requires LogKinds(k)
    ensures var m := multiset(k);
            && m[CreatePayment] <= 1 && m[CreatePaymentResponse] <= 1 && m[ExecutePayment] <= 1
            && m[ExecutePaymentResponse] == if |k| == 4 && k[3] == ExecutePaymentResponse then 1 else 0
  {
  }

  lemma KindsCounted(p: Payment, s: State)
    requires LogShape(p, s)
    ensures var k := multiset(Kinds(s.rows));
            && k[CreatePayment] <= 1 && k[CreatePaymentResponse] <= 1 && k[ExecutePayment] <= 1
            && k[ExecutePaymentResponse] == (if |s.rows| == 4 && s.rows[3].kind == ExecutePaymentResponse then 1 else 0)
    ensures |s.jobs| <= 1
  {
    ShapeKinds(p, s);
    KindsOnce(Kinds(s.rows));
  }

  /** The ledger of every run: one opening entry, first; at most one cancellation. */
  lemma LedgerOfRun(p: Payment, run: seq<Event>)
    ensures var l := After(p, run).ledger;
            && (forall i :: 0 <= i < |l| ==> (l[i].status == Open <==> i == 0))
            && CountStatus(l, Cancelled) <= 1
            && (forall i :: 0 <= i < |l| ==> l[i].currency == p.currency && l[i].subunits == p.subunits)
  {
    RunKeeps(p, run);
    EntriesOfShape(p, After(p, run).ledger);
  }

  lemma EntriesOfShape(p: Payment, l: seq<PaymentTransaction>)
    requires LedgerShape(p, l)
    ensures forall i :: 0 <= i < |l| ==> (l[i].status == Open <==> i == 0)
    ensures CountStatus(l, Cancelled) <= 1
    ensures forall i :: 0 <= i < |l| ==> l[i].currency == p.currency && l[i].subunits == p.subunits
  {
    CountUpToThree(l, Cancelled);
  }

  function Sum(l: seq<PaymentTransaction>): int {
    if l == [] then 0 else Sum(l[..|l| - 1]) + l[|l| - 1].amount
  }

  /** In one currency with one number of subunits the balance is the plain sum. */
  lemma {:induction false} PlainBalance(l: seq<PaymentTransaction>, c: string, subunits: int)
    requires forall t :: t in l ==> t.currency == c && t.subunits == subunits
    ensures BalanceOf(l) == if l == [] then map[] else map[c := (Sum(l), subunits)]
    decreases |l|
  {
    if l != [] {
      PlainBalance(l[..|l| - 1], c, subunits);
      assert l[|l| - 1] in l;
      assert Pow(10, 0) == 1;
      if |l| == 1 { assert l[..0] == []; }
    }
  }

  /**
   The balance of every run: nothing before the payment was opened, then zero or
   the amount still owed. Cancelling never changes it, whenever it happens.
   */
  lemma BalanceOfRun(p: Payment, run: seq<Event>)
    ensures var l := After(p, run).ledger;
            BalanceOf(l) == if l == [] then map[]
                            else map[p.currency := (if CountStatus(l, Paid) > 0 then 0 else 0 - p.amount, p.subunits)]
  {
    RunKeeps(p, run);
    var l := After(p, run).ledger;
    if l != [] { BalanceOfShape(p, l); }
  }

  lemma BalanceOfShape(p: Payment, l: seq<PaymentTransaction>)
    requires LedgerShape(p, l) && l != []
    ensures BalanceOf(l) == map[p.currency := (if CountStatus(l, Paid) > 0 then 0 else 0 - p.amount, p.subunits)]
  {
    PlainBalance(l, p.currency, p.subunits);
    SumOfShape(p, l);
  }

  lemma SumOfShape(p: Payment, l: seq<PaymentTransaction>)
    requires LedgerShape(p, l) && l != []
    ensures Sum(l) == if CountStatus(l, Paid) > 0 then 0 else 0 - p.amount
  {
    CountUpToThree(l, Paid);
    SumUpToThree(l);
  }

  lemma SumUpToThree(l: seq<PaymentTransaction>)
    requires |l| <= 3
    ensures |l| == 1 ==> Sum(l) == l[0].amount
    ensures |l| == 2 ==> Sum(l) == l[0].amount + l[1].amount
    ensures |l| == 3 ==> Sum(l) == l[0].amount + l[1].amount + l[2].amount
  {
    Unfold(l);
  }

  predicate Grows(s: State, s': State) { s.ledger <= s'.ledger && s.rows <= s'.rows }

  lemma GrowsOn(a: State, b: State, c: State)
    requires Grows(a, b) && Grows(b, c)
    ensures Grows(a, c)
  {
  }

  lemma LastStepGrows(p: Payment, run: seq<Event>)
    requires run != []
    ensures Grows(After(p, run[..|run| - 1]), After(p, run))
  {
    StepGrows(p, After(p, run[..|run| - 1]), run[|run| - 1]);
  }

  /** Both logs only grow. */
  lemma {:induction false} AppendOnly(p: Payment, run: seq<Event>, more: seq<Event>)
    ensures Grows(After(p, run), After(p, run + more))
    decreases |more|
  {
    if more == [] {
      assert run + more == run;
    } else {
      var init := more[..|more| - 1];
      AppendOnly(p, run, init);
      assert (run + more)[..|run + more| - 1] == run + init;
      LastStepGrows(p, run + more);
      GrowsOn(After(p, run), After(p, run + init), After(p, run + more));
    }
  }

  lemma StepGrows(p: Payment, s: State, e: Event)
    ensures Grows(s, Next(p, s, e))
  {
    match e
    case FinishCreate(NotCreated(intent)) =>
      var s' := Logged(s, CreatePaymentResponse, intent);
      assert s.rows <= s'.rows <= Logged(s', ErrorReported, intent).rows;
    case _ =>
  }

  /** Only a younger cancellation hides a settlement, which is the last entry to be committed. */
  predicate StatusRule(l: seq<PaymentTransaction>)
    requires l != []
  {
    var settled := l[|l| - 1];
    && (CurrentStatus(l) == settled.status
        <==> forall t :: t in l && t.status == Cancelled ==> t.timestamp < settled.timestamp)
    && (CurrentStatus(l) != settled.status ==> CurrentStatus(l) == Cancelled)
  }

  /**
   A settlement carries the time at which its intent was granted, not the time
   at which it was committed. The status read afterwards is the settlement's
   exactly when no cancellation is dated later; otherwise it is `Cancelled`.
   */
  lemma StatusAfterSettlement(p: Payment, run: seq<Event>)
    requires Settlement(p, After(p, run).ledger)
    ensures StatusRule(After(p, run).ledger)
  {
    RunKeeps(p, run);
    StatusOfState(p, After(p, run));
  }

  lemma StatusOfState(p: Payment, s: State)
    requires Invariant(p, s) && Settlement(p, s.ledger)
    ensures StatusRule(s.ledger)
  {
    StatusOfShape(p, s.ledger);
  }

  lemma StatusOfShape(p: Payment, l: seq<PaymentTransaction>)
    requires LedgerShape(p, l) && Settlement(p, l)
    requires forall i, j :: 0 <= i < j < |l| ==> l[i].timestamp != l[j].timestamp
    ensures StatusRule(l)
  {
    var t := Latest(l);
    assert l[1] in l && l[|l| - 1] in l && t in l;
  }

  lemma OneMore(p: Payment, run: seq<Event>, e: Event)
    ensures After(p, run + [e]) == Next(p, After(p, run), e)
  {
    assert (run + [e])[..|run|] == run;
  }

  /** A run up to the moment at which PayPal is asked to execute a sale. */
  function UpToReturn(): seq<Event> {
    [] + [VisitPaymentPage] + [PayPalInit] + [FinishCreate(Created(Sale))] + [ReturnFromPayPal]
  }

  lemma StateUpToResponse(p: Payment)
    requires p.provider == PayPal
    ensures var s := After(p, [] + [VisitPaymentPage] + [PayPalInit] + [FinishCreate(Created(Sale))]);
            && s.clock == 5 && s.ledger == [PaymentTransaction(0, 0 - p.amount, p.subunits, p.currency, Open)]
            && s.jobs == multiset{}
            && s.rows == [Row(1, CreatePayment, OtherIntent), Row(3, CreatePaymentResponse, Sale)]
  {
    var s0: seq<Event> := [];
    OneMore(p, s0, VisitPaymentPage);
    OneMore(p, s0 + [VisitPaymentPage], PayPalInit);
    assert After(p, s0 + [VisitPaymentPage] + [PayPalInit]).jobs == multiset{Creating};
    OneMore(p, s0 + [VisitPaymentPage] + [PayPalInit], FinishCreate(Created(Sale)));
  }

  lemma StateUpToReturn(p: Payment)
    requires p.provider == PayPal
    ensures var s := After(p, UpToReturn());
            && s.clock == 7 && s.ledger == [PaymentTransaction(0, 0 - p.amount, p.subunits, p.currency, Open)]
            && s.jobs == multiset{Executing(Sale, Open)} && s.rows != []
  {
    var run := [] + [VisitPaymentPage] + [PayPalInit] + [FinishCreate(Created(Sale))];
    StateUpToResponse(p);
    OneMore(p, run, ReturnFromPayPal);
    LatestRowIsLast(After(p, run).rows);
  }

  lemma ThreeMore(p: Payment, run: seq<Event>, e: Event, f: Event, g: Event)
    ensures After(p, run + [e] + [f] + [g]) == Next(p, Next(p, Next(p, After(p, run), e), f), g)
  {
    OneMore(p, run, e);
    OneMore(p, run + [e], f);
    OneMore(p, run + [e] + [f], g);
  }

  /** The intent is granted at time 7, and the payment cancelled at time 8. */
  lemma GrantThenCancel(p: Payment, s: State)
    requires s.clock == 7 && s.ledger == [PaymentTransaction(0, 0 - p.amount, p.subunits, p.currency, Open)]
    requires s.jobs == multiset{Executing(Sale, Open)} && s.rows != []
    ensures var s' := Next(p, Next(p, s, AskIntent(Executing(Sale, Open), true, false)), CancelAtPayPal);
            && s'.ledger == [s.ledger[0], PaymentTransaction(8, 0, p.subunits, p.currency, Cancelled)]
            && s'.jobs == multiset{Settling(PaymentTransaction(7, p.amount, p.subunits, p.currency, Paid))}
  {
    var granted := Next(p, s, AskIntent(Executing(Sale, Open), true, false));
    assert granted.clock == 8 && granted.ledger == s.ledger;
    assert granted.jobs == multiset{Settling(PaymentTransaction(7, p.amount, p.subunits, p.currency, Paid))};
  }

  lemma CommittedBehind(p: Payment, s: State, paid: PaymentTransaction, cancelled: PaymentTransaction)
    requires |s.ledger| == 2 && s.ledger[1] == cancelled && s.jobs == multiset{Settling(paid)}
    requires s.ledger[0].timestamp < paid.timestamp < cancelled.timestamp && cancelled.status == Cancelled
    ensures var l := Next(p, s, FinishExecute(paid, SettleCommitted)).ledger;
            paid in l && CurrentStatus(l) == Cancelled
  {
    var l := s.ledger + [paid];
    assert Next(p, s, FinishExecute(paid, SettleCommitted)).ledger == l;
    assert l[1] == cancelled && l[2] == paid && cancelled in l && paid in l;
  }

  /** A payment that was paid can read as cancelled. */
  lemma CancellationHidesPayment(p: Payment)
    requires p.provider == PayPal
    ensures var paid := PaymentTransaction(7, p.amount, p.subunits, p.currency, Paid);
            var run := UpToReturn() + [AskIntent(Executing(Sale, Open), true, false)]
                       + [CancelAtPayPal] + [FinishExecute(paid, SettleCommitted)];
            var l := After(p, run).ledger;
            paid in l && CurrentStatus(l) == Cancelled
  {
    var paid := PaymentTransaction(7, p.amount, p.subunits, p.currency, Paid);
    var asked := AskIntent(Executing(Sale, Open), true, false);
    var s := After(p, UpToReturn());
    StateUpToReturn(p);
    GrantThenCancel(p, s);
    var late := Next(p, Next(p, s, asked), CancelAtPayPal);
    CommittedBehind(p, late, paid, late.ledger[1]);
    ThreeMore(p, UpToReturn(), asked, CancelAtPayPal, FinishExecute(paid, SettleCommitted));
  }

  // --- what was agreed is what is entered --------------------------------------

  /** The create response is there, and an entry of this status is the one for its intent. */
  predicate Intended(rows: seq<Row>, status: Status) {
    && |rows| >= 2 && rows[1].kind == CreatePaymentResponse
    && (status == Paid ==> rows[1].intent == Sale)
    && (status == Authorized ==> rows[1].intent == Authorize)
  }

  predicate JobIntended(rows: seq<Row>, j: Job) {
    match j
    case Creating => true
    case Executing(intent, _) => |rows| >= 2 && rows[1].kind == CreatePaymentResponse && rows[1].intent == intent
    case Settling(tx) => Intended(rows, tx.status)
  }

  ghost predicate IntentKept(s: State) {
    && (forall j :: j in s.jobs ==> JobIntended(s.rows, j))
    && (forall t :: t in s.ledger && (t.status == Paid || t.status == Authorized) ==> Intended(s.rows, t.status))
  }

  lemma JobIntendedOn(rows: seq<Row>, more: seq<Row>, j: Job)
    requires JobIntended(rows, j) && rows <= more
    ensures JobIntended(more, j)
  {
  }

  /** Every job of the next state is an old one, or was made for the intent of the create response. */
  lemma JobsIntended(p: Payment, s: State, e: Event, j: Job)
    requires Invariant(p, s) && IntentKept(s) && j in Next(p, s, e).jobs
    ensures JobIntended(Next(p, s, e).rows, j)
  {
    StepGrows(p, s, e);
    if j in s.jobs {
      JobIntendedOn(s.rows, Next(p, s, e).rows, j);
    } else if e.ReturnFromPayPal? {
      LatestRowIsLast(s.rows);
      ResponseLast(p, s);
      ReturnedJob(p, s, j);
    } else if e.AskIntent? {
      assert JobIntended(s.rows, e.asking);
      GrantedJob(p, s, e, j);
    } else {
      NoOtherJob(p, s, e, j);
    }
  }

  lemma ReturnedJob(p: Payment, s: State, j: Job)
    requires |s.rows| == 2 && Kinds(s.rows) == [CreatePayment, CreatePaymentResponse]
    requires LatestRow(s.rows) == s.rows[1] && j !in s.jobs && j in Next(p, s, ReturnFromPayPal).jobs
    ensures JobIntended(Next(p, s, ReturnFromPayPal).rows, j)
  {
    assert Kinds(s.rows)[1] == s.rows[1].kind;
    assert j == Executing(s.rows[1].intent, CurrentStatus(s.ledger));
  }

  lemma GrantedJob(p: Payment, s: State, e: Event, j: Job)
    requires e.AskIntent? && j !in s.jobs && j in Next(p, s, e).jobs
    requires e.asking in s.jobs ==> JobIntended(s.rows, e.asking)
    ensures JobIntended(Next(p, s, e).rows, j)
  {
    assert j == Settling(NewTransaction(p, s, GrantedStatus(e.asking)));
  }

  lemma NoOtherJob(p: Payment, s: State, e: Event, j: Job)
    requires !e.ReturnFromPayPal? && !e.AskIntent? && j !in s.jobs && j in Next(p, s, e).jobs
    ensures j == Creating
  {
  }

  /** An entry of the next ledger is an old one, an unsettled one, or that of a settling job. */
  lemma EntriesIntended(p: Payment, s: State, e: Event, t: PaymentTransaction)
    requires IntentKept(s) && t in Next(p, s, e).ledger && (t.status == Paid || t.status == Authorized)
    ensures Intended(Next(p, s, e).rows, t.status)
  {
    StepGrows(p, s, e);
    if t !in s.ledger {
      assert e.FinishExecute? && Settling(t) in s.jobs;
      JobIntendedOn(s.rows, Next(p, s, e).rows, Settling(t));
    }
  }

  lemma {:induction false} RunKeepsIntent(p: Payment, run: seq<Event>)
    ensures IntentKept(After(p, run))
    decreases |run|
  {
    if run != [] {
      var s, e := After(p, run[..|run| - 1]), run[|run| - 1];
      RunKeeps(p, run[..|run| - 1]);
      RunKeepsIntent(p, run[..|run| - 1]);
      forall j | j in Next(p, s, e).jobs ensures JobIntended(Next(p, s, e).rows, j) {
        JobsIntended(p, s, e, j);
      }
      forall t | t in Next(p, s, e).ledger && (t.status == Paid || t.status == Authorized)
        ensures Intended(Next(p, s, e).rows, t.status)
      {
        EntriesIntended(p, s, e, t);
      }
    }
  }

  /**
   In every run the payment is entered as paid, with its amount, only if PayPal
   created it as a sale, and as authorized, with nothing, only if it created it
   as an authorization.
   */
  lemma EnteredAsCreated(p: Payment, run: seq<Event>, t: PaymentTransaction)
    requires t in After(p, run).ledger && (t.status == Paid || t.status == Authorized)
    ensures var rows := After(p, run).rows;
            && |rows| == 4 && rows[1].kind == CreatePaymentResponse && rows[3].kind == ExecutePaymentResponse
            && (t.status == Paid <==> rows[1].intent == Sale)
            && (t.status == Authorized <==> rows[1].intent == Authorize)
    ensures t.amount == if t.status == Paid then p.amount else 0
  {
    RunKeeps(p, run);
    RunKeepsIntent(p, run);
    SettledEntry(p, After(p, run), t);
  }

  lemma SettledEntry(p: Payment, s: State, t: PaymentTransaction)
    requires Invariant(p, s) && t in s.ledger && (t.status == Paid || t.status == Authorized)
    ensures t == s.ledger[|s.ledger| - 1] && IsSettled(p, t)
    ensures |s.rows| == 4 && s.rows[3].kind == ExecutePaymentResponse
  {
    assert Settlement(p, s.ledger);
  }

  /** A payment of some amount is balanced exactly when a sale was executed. */
  lemma BalancedBySale(p: Payment, run: seq<Event>)
    requires p.amount > 0 && After(p, run).ledger != []
    ensures var s := After(p, run); var b := BalanceOf(s.ledger);
            && p.currency in b && b[p.currency].1 == p.subunits
            && (b[p.currency].0 == 0 <==> |s.rows| == 4 && s.rows[3].kind == ExecutePaymentResponse
                                          && s.rows[1].intent == Sale)
            && (b[p.currency].0 != 0 ==> b[p.currency].0 == 0 - p.amount)
  {
    RunKeeps(p, run);
    BalanceOfRun(p, run);
    var s := After(p, run);
    if CountStatus(s.ledger, Paid) > 0 {
      var t := Counted(s.ledger, Paid);
      EnteredAsCreated(p, run, t);
    } else if Settlement(p, s.ledger) {
      var t := s.ledger[|s.ledger| - 1];
      NoneCounted(s.ledger, Paid, t);
      EnteredAsCreated(p, run, t);
    }
  }

  lemma {:induction false} Counted(l: seq<PaymentTransaction>, status: Status) returns (t: PaymentTransaction)
    requires CountStatus(l, status) > 0
    ensures t in l && t.status == status
    decreases |l|
  {
    t := l[|l| - 1];
    if t.status != status { t := Counted(l[..|l| - 1], status); }
  }

  lemma {:induction false} NoneCounted(l: seq<PaymentTransaction>, status: Status, t: PaymentTransaction)
    requires CountStatus(l, status) == 0 && t in l
    ensures t.status != status
    decreases |l|
  {
    if t != l[|l| - 1] { NoneCounted(l[..|l| - 1], status, t); }
  }

  // --- settling a cancelled payment ------------------------------------------

  predicate CancelledUnsettled(p: Payment, s: State) {
    CurrentStatus(s.ledger) == Cancelled && !Settlement(p, s.ledger)
  }

  /** Jobs that may still lead to a settlement: the status they know is not read again. */
  predicate CanSettle(j: Job) {
    j.Settling? || (j.Executing? && j.status == Open && j.intent != OtherIntent)
  }

  ghost predicate SettlementOut(s: State) { exists j :: j in s.jobs && CanSettle(j) }

  ghost predicate SettlesLater(p: Payment, run: seq<Event>) {
    exists more :: Settlement(p, After(p, run + more).ledger)
  }

  /** A cancelled ledger without a settlement has two entries and is never added to but by a settlement. */
  lemma CancelledShape(p: Payment, s: State)
    requires Invariant(p, s) && CancelledUnsettled(p, s)
    ensures |s.ledger| == 2 && p.provider == PayPal && s.ledger[1].status == Cancelled
  {
    OpenOnlyAlone(p, s.ledger);
    if |s.ledger| == 2 { assert s.ledger[1] in s.ledger && s.ledger[0] in s.ledger; }
  }

  lemma LedgerStays(p: Payment, s: State, e: Event)
    requires Invariant(p, s) && CancelledUnsettled(p, s) && !SettlementOut(s)
    ensures Next(p, s, e).ledger == s.ledger
  {
    CancelledShape(p, s);
    match e
    case FinishExecute(tx, _) =>
      if Settling(tx) in s.jobs { assert CanSettle(Settling(tx)); }
    case _ =>
  }

  /** New jobs are create requests, or know the payment as cancelled. */
  lemma JobsStay(p: Payment, s: State, e: Event, j: Job)
    requires CurrentStatus(s.ledger) == Cancelled && !SettlementOut(s) && j in Next(p, s, e).jobs
    ensures !CanSettle(j)
  {
    match e
    case PayPalInit => assert j in s.jobs || j == Creating;
    case ReturnFromPayPal => assert j in s.jobs || (j.Executing? && j.status == Cancelled);
    case AskIntent(asking, _, _) =>
      if asking in s.jobs { assert !CanSettle(asking); }
      assert j in s.jobs;
    case _ => assert j in s.jobs;
  }

  lemma StaysUnsettled(p: Payment, s: State, e: Event)
    requires Invariant(p, s) && CancelledUnsettled(p, s) && !SettlementOut(s)
    ensures CancelledUnsettled(p, Next(p, s, e)) && !SettlementOut(Next(p, s, e))
  {
    LedgerStays(p, s, e);
    forall j | j in Next(p, s, e).jobs ensures !CanSettle(j) {
      JobsStay(p, s, e, j);
    }
  }

  lemma Appending(run: seq<Event>, more: seq<Event>)
    requires more != []
    ensures run + more == (run + more[..|more| - 1]) + [more[|more| - 1]]
  {
  }

  lemma {:induction false} RunStaysUnsettled(p: Payment, run: seq<Event>, more: seq<Event>)
    requires CancelledUnsettled(p, After(p, run)) && !SettlementOut(After(p, run))
    ensures CancelledUnsettled(p, After(p, run + more)) && !SettlementOut(After(p, run + more))
    decreases |more|
  {
    if more == [] {
      assert run + more == run;
    } else {
      var before := run + more[..|more| - 1];
      RunStaysUnsettled(p, run, more[..|more| - 1]);
      RunKeeps(p, before);
      StaysUnsettled(p, After(p, before), more[|more| - 1]);
      Appending(run, more);
      OneMore(p, before, more[|more| - 1]);
    }
  }

  /** The commit of a settling job settles the payment. */
  lemma CommitSettles(p: Payment, s: State, tx: PaymentTransaction)
    requires Invariant(p, s) && Settling(tx) in s.jobs
    ensures Settlement(p, Next(p, s, FinishExecute(tx, SettleCommitted)).ledger)
  {
    OnlyJob(p, s, Settling(tx));
    SettlementFits(p, s, tx);
  }

  lemma GrantMakesSettling(p: Payment, s: State, j: Job)
    requires j in s.jobs && j.Executing? && CanSettle(j)
    ensures Settling(NewTransaction(p, s, GrantedStatus(j))) in Next(p, s, AskIntent(j, true, false)).jobs
  {
  }

  lemma SettlingSettles(p: Payment, run: seq<Event>, tx: PaymentTransaction)
    requires Settling(tx) in After(p, run).jobs
    ensures Settlement(p, After(p, run + [FinishExecute(tx, SettleCommitted)]).ledger)
  {
    RunKeeps(p, run);
    CommitSettles(p, After(p, run), tx);
    OneMore(p, run, FinishExecute(tx, SettleCommitted));
  }

  lemma ExecutingBecomesSettling(p: Payment, run: seq<Event>, j: Job) returns (tx: PaymentTransaction)
    requires j in After(p, run).jobs && j.Executing? && CanSettle(j)
    ensures Settling(tx) in After(p, run + [AskIntent(j, true, false)]).jobs
  {
    tx := NewTransaction(p, After(p, run), GrantedStatus(j));
    GrantMakesSettling(p, After(p, run), j);
    OneMore(p, run, AskIntent(j, true, false));
  }

  lemma OutSettles(p: Payment, run: seq<Event>, j: Job)
    requires j in After(p, run).jobs && CanSettle(j)
    ensures SettlesLater(p, run)
  {
    if j.Settling? {
      SettlingSettles(p, run, j.tx);
    } else {
      var ask := AskIntent(j, true, false);
      var tx := ExecutingBecomesSettling(p, run, j);
      var commit := FinishExecute(tx, SettleCommitted);
      SettlingSettles(p, run + [ask], tx);
      assert (run + [ask]) + [commit] == run + [ask, commit];
    }
  }

  /**
   A payment that reads as cancelled, and was not settled, is settled by some
   continuation exactly when a job is out that was granted its intent, or that
   read the status before the cancellation.
   */
  lemma SettledAfterCancellation(p: Payment, run: seq<Event>)
    requires CancelledUnsettled(p, After(p, run))
    ensures SettlesLater(p, run) <==> SettlementOut(After(p, run))
  {
    if SettlementOut(After(p, run)) {
      var j :| j in After(p, run).jobs && CanSettle(j);
      OutSettles(p, run, j);
    } else if SettlesLater(p, run) {
      var more :| Settlement(p, After(p, run + more).ledger);
      RunStaysUnsettled(p, run, more);
    }
  }

  /** The payment is cancelled at time 7, and the intent granted at time 8. */
  lemma CancelThenGrant(p: Payment, s: State)
    requires s.clock == 7 && s.ledger == [PaymentTransaction(0, 0 - p.amount, p.subunits, p.currency, Open)]
    requires s.jobs == multiset{Executing(Sale, Open)} && s.rows != []
    ensures var cancelled := Next(p, s, CancelAtPayPal);
            var granted := Next(p, cancelled, AskIntent(Executing(Sale, Open), true, false));
            && CurrentStatus(cancelled.ledger) == Cancelled
            && granted.ledger == cancelled.ledger
               == [s.ledger[0], PaymentTransaction(7, 0, p.subunits, p.currency, Cancelled)]
            && granted.jobs == multiset{Settling(PaymentTransaction(8, p.amount, p.subunits, p.currency, Paid))}
  {
    var cancelled := Next(p, s, CancelAtPayPal);
    assert cancelled.clock == 8 && cancelled.jobs == s.jobs;
    assert cancelled.ledger[1] in cancelled.ledger && cancelled.ledger[0] in cancelled.ledger;
  }

  lemma CommittedInFront(p: Payment, s: State, paid: PaymentTransaction)
    requires |s.ledger| == 2 && s.jobs == multiset{Settling(paid)}
    requires s.ledger[0].timestamp < paid.timestamp && s.ledger[1].timestamp < paid.timestamp
    ensures CurrentStatus(Next(p, s, FinishExecute(paid, SettleCommitted)).ledger) == paid.status
  {
    var l := s.ledger + [paid];
    assert Next(p, s, FinishExecute(paid, SettleCommitted)).ledger == l;
    assert l[2] == paid && paid in l;
  }

  /** A cancelled payment can be paid: from the current status `Cancelled` to `Paid`. */
  lemma CancelledPaymentPaid(p: Payment)
    requires p.provider == PayPal
    ensures var paid := PaymentTransaction(8, p.amount, p.subunits, p.currency, Paid);
            var asked := AskIntent(Executing(Sale, Open), true, false);
            var cancelled := UpToReturn() + [CancelAtPayPal];
            && CurrentStatus(After(p, cancelled).ledger) == Cancelled
            && CurrentStatus(After(p, cancelled + [asked] + [FinishExecute(paid, SettleCommitted)]).ledger) == Paid
  {
    var paid := PaymentTransaction(8, p.amount, p.subunits, p.currency, Paid);
    var asked := AskIntent(Executing(Sale, Open), true, false);
    var s := After(p, UpToReturn());
    StateUpToReturn(p);
    CancelThenGrant(p, s);
    OneMore(p, UpToReturn(), CancelAtPayPal);
    ThreeMore(p, UpToReturn(), CancelAtPayPal, asked, FinishExecute(paid, SettleCommitted));
    CommittedInFront(p, Next(p, Next(p, s, CancelAtPayPal), asked), paid);
  }

  // --- the status behind a settlement ------------------------------------------

  lemma LatestExtended(l: seq<PaymentTransaction>, tx: PaymentTransaction)
    requires l != []
    ensures Latest(l + [tx]) == if tx.timestamp > Latest(l).timestamp then tx else Latest(l)
  {
    assert (l + [tx])[..|l|] == l;
  }

  lemma UnsettledStatus(p: Payment, l: seq<PaymentTransaction>)
    requires LedgerShape(p, l) && !Settlement(p, l) && p.provider == PayPal && l != []
    ensures Latest(l).status == Open || Latest(l).status == Cancelled
  {
    assert Latest(l) in l;
  }

  /** At the commit: the settlement is what is read exactly when no entry is younger. */
  lemma StatusAtCommit(p: Payment, s: State, tx: PaymentTransaction)
    requires Invariant(p, s) && Settling(tx) in s.jobs
    ensures s.ledger != []
    ensures CurrentStatus(Next(p, s, FinishExecute(tx, SettleCommitted)).ledger) == tx.status
       <==> Latest(s.ledger).timestamp < tx.timestamp
  {
    OnlyJob(p, s, Settling(tx));
    SettlementFits(p, s, tx);
    assert Next(p, s, FinishExecute(tx, SettleCommitted)).ledger == s.ledger + [tx];
    LatestExtended(s.ledger, tx);
    UnsettledStatus(p, s.ledger);
  }

  /** A job that was granted earlier is not granted again: times differ. */
  lemma SettlingIsOld(p: Payment, s: State, e: Event, tx: PaymentTransaction)
    requires tx.timestamp < s.clock && Settling(tx) in Next(p, s, e).jobs
    ensures Settling(tx) in s.jobs
  {
    if e.AskIntent? && e.asking in s.jobs && e.asking.Executing? {
      var left := s.jobs - multiset{e.asking};
      assert Settling(tx) in left || Settling(tx) in Effect(p, s, e).jobs - left;
    }
  }

  /** While a granted job is out the ledger gains nothing but a younger cancellation. */
  lemma OnlyCancelledMeanwhile(p: Payment, s: State, e: Event, tx: PaymentTransaction)
    requires Invariant(p, s) && Settling(tx) in s.jobs && Settling(tx) in Next(p, s, e).jobs
    ensures var l := Next(p, s, e).ledger;
            l == s.ledger || l == s.ledger + [NewTransaction(p, s, Cancelled)]
  {
    OnlyJob(p, s, Settling(tx));
    OpenOnlyAlone(p, s.ledger);
    if e.FinishExecute? {
      assert s.jobs - multiset{Settling(tx)} == multiset{};
    }
  }

  lemma {:induction false} ClockGrows(p: Payment, run: seq<Event>, more: seq<Event>)
    ensures After(p, run).clock + |more| <= After(p, run + more).clock
    decreases |more|
  {
    if more == [] {
      assert run + more == run;
    } else {
      var before := run + more[..|more| - 1];
      ClockGrows(p, run, more[..|more| - 1]);
      Appending(run, more);
      OneMore(p, before, more[|more| - 1]);
      ClockStep(p, After(p, before), more[|more| - 1]);
    }
  }

  lemma ClockStep(p: Payment, s: State, e: Event)
    ensures s.clock < Next(p, s, e).clock
  {
  }

  /** The ledger, or the ledger with one younger cancellation. */
  ghost predicate Meanwhile(p: Payment, s: State, l: seq<PaymentTransaction>) {
    l == s.ledger
    || exists t: PaymentTransaction :: l == s.ledger + [t] && t.status == Cancelled && t.timestamp >= s.clock
  }

  lemma MeanwhileStep(p: Payment, s0: State, s: State, e: Event, tx: PaymentTransaction)
    requires Invariant(p, s) && Invariant(p, Next(p, s, e)) && s0.clock <= s.clock && Meanwhile(p, s0, s.ledger)
    requires Settling(tx) in s.jobs && Settling(tx) in Next(p, s, e).jobs
    ensures Meanwhile(p, s0, Next(p, s, e).ledger)
  {
    OnlyCancelledMeanwhile(p, s, e, tx);
    OnlyJob(p, s, Settling(tx));
    if Next(p, s, e).ledger != s.ledger {
      assert Next(p, s, e).ledger[|s.ledger|].status == Cancelled;
      assert |s.ledger| == 1;
    }
  }

  /** Between grant and commit of a job the ledger gains one cancellation at most. */
  lemma {:induction false} LedgerMeanwhile(p: Payment, run: seq<Event>, more: seq<Event>, tx: PaymentTransaction)
    requires Settling(tx) in After(p, run).jobs && Settling(tx) in After(p, run + more).jobs
    ensures Meanwhile(p, After(p, run), After(p, run + more).ledger)
    decreases |more|
  {
    if more == [] {
      assert run + more == run;
    } else {
      var init, e := more[..|more| - 1], more[|more| - 1];
      Appending(run, more);
      OneMore(p, run + init, e);
      RunKeeps(p, run);
      OnlyJob(p, After(p, run), Settling(tx));
      ClockGrows(p, run, init);
      SettlingIsOld(p, After(p, run + init), e, tx);
      LedgerMeanwhile(p, run, init, tx);
      RunKeeps(p, run + init);
      RunKeeps(p, run + more);
      MeanwhileStep(p, After(p, run), After(p, run + init), e, tx);
    }
  }

  lemma GrantedState(p: Payment, s: State, j: Job)
    requires j in s.jobs && j.Executing? && CanSettle(j)
    ensures var s' := Next(p, s, AskIntent(j, true, false));
            && s'.ledger == s.ledger && s'.clock == s.clock + 1
            && Settling(NewTransaction(p, s, GrantedStatus(j))) in s'.jobs
  {
  }

  lemma YoungestDecides(p: Payment, s0: State, l: seq<PaymentTransaction>, time: int)
    requires s0.ledger != [] && Meanwhile(p, s0, l) && time < s0.clock
    requires forall t :: t in s0.ledger ==> t.timestamp < time
    ensures l != []
    ensures Latest(l).timestamp < time <==> l == s0.ledger
  {
    if l != s0.ledger {
      var t: PaymentTransaction :| l == s0.ledger + [t] && t.timestamp >= s0.clock;
      assert l[|l| - 1] in l;
    }
  }

  /**
   A committed settlement is hidden exactly when a cancellation took effect
   between the grant of its intent and its commit, whatever else happened.
   */
  lemma HiddenByCancellation(p: Payment, run: seq<Event>, j: Job, more: seq<Event>)
    requires j in After(p, run).jobs && j.Executing? && CanSettle(j)
    requires var tx := NewTransaction(p, After(p, run), GrantedStatus(j));
             Settling(tx) in After(p, run + [AskIntent(j, true, false)] + more).jobs
    ensures var tx := NewTransaction(p, After(p, run), GrantedStatus(j));
            var later := run + [AskIntent(j, true, false)] + more;
            CurrentStatus(After(p, later + [FinishExecute(tx, SettleCommitted)]).ledger) == tx.status
            <==> After(p, later).ledger == After(p, run).ledger
  {
    var s, ask := After(p, run), AskIntent(j, true, false);
    var tx, granted := NewTransaction(p, s, GrantedStatus(j)), run + [ask];
    RunKeeps(p, run);
    OneMore(p, run, ask);
    GrantedState(p, s, j);
    LedgerMeanwhile(p, granted, more, tx);
    RunKeeps(p, granted);
    RunKeeps(p, granted + more);
    OnlyJob(p, After(p, granted), Settling(tx));
    YoungestDecides(p, After(p, granted), After(p, granted + more).ledger, tx.timestamp);
    StatusAtCommit(p, After(p, granted + more), tx);
    OneMore(p, granted + more, FinishExecute(tx, SettleCommitted));
  }
}
