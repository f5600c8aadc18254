/**
 The handlers and background requests that drive a payment, with the database
 transactions written out: every statement, and every commit, may fail. Whatever
 fails, an execution of a handler is one event of a run of `Lifecycle`. Only the
 two handlers that begin anew after a lock error leave transactions unfinished.
 */
module Server {
  import opened Wrappers
  import opened Transactions
  import opened Ledger
  import opened Lifecycle
  import opened PaymentHandler

  /** What comes back from a request to PayPal. */
  datatype Response =
    | NotSent
    | NoResponse
    | BadBody
    | Delivered(intent: Intent, accepted: bool)

  /** How the create goroutine ends, given the response and whether the database let it down. */
  predicate Follows(created: CreateOutcome, response: Response, faulty: bool) {
    match created
    case Created(intent) => response == Delivered(intent, true)
    case NotCreated(intent) => response == Delivered(intent, false)
    case CreateFailed => response.NoResponse? || response.BadBody? || (response.Delivered? && faulty)
    case CreateLost => response.NotSent? || faulty
  }

  /** What the create goroutine writes at a time. */
  function RowsOf(created: CreateOutcome, time: int): seq<Row> {
    match created
    case CreateLost => []
    case CreateFailed => [Row(time, ErrorReported, OtherIntent)]
    case Created(intent) => [Row(time, CreatePaymentResponse, intent)]
    case NotCreated(intent) => [Row(time, CreatePaymentResponse, intent)] + [Row(time + 1, ErrorReported, intent)]
  }

  /** The state behind a request for an intent: a settling job, an error row, or neither. */
  lemma StateAsked(p: Lifecycle.Payment, s: State, job: Job, tx: Option<PaymentTransaction>, reported: bool)
    requires job in s.jobs && job.Executing?
    requires tx.Some? ==> job.status == Open && job.intent != OtherIntent && !reported
    requires tx.Some? ==> tx.value == NewTransaction(p, s, GrantedStatus(job))
    requires reported ==> job.intent != OtherIntent
    ensures Next(p, s, AskIntent(job, tx.Some?, reported))
         == State(s.clock + (if reported then 2 else 1), s.ledger,
                  s.rows + (if reported then [Row(s.clock, ErrorReported, OtherIntent)] else []),
                  (s.jobs - multiset{job}) + (if tx.Some? then multiset{Settling(tx.value)} else multiset{}), s.served)
  {
    assert s.rows + [] == s.rows;
  }

  /** The state behind a request for execution: its row, and its job with the status that was read. */
  lemma StateReturned(p: Lifecycle.Payment, s: State)
    requires s.rows != [] && LatestRow(s.rows).kind == CreatePaymentResponse
    ensures Next(p, s, ReturnFromPayPal)
         == State(s.clock + 2, s.ledger, s.rows + [Row(s.clock, ExecutePayment, OtherIntent)],
                  s.jobs + multiset{Executing(LatestRow(s.rows).intent, CurrentStatus(s.ledger))}, s.served)
  {
  }

  class PaymentServer {
    const p: Lifecycle.Payment
    const id: int
    const db: PaymentDB
    var clock: int
    var jobs: multiset<Job>
    var served: bool

    function Now(): State
      reads this, db
    {
      State(clock, db.committed.ledger, db.committed.paypal, jobs, served)
    }

    ghost predicate Valid()
      reads this, db
    {
      Older(db.committed, clock)
    }

    /** A new payment, with the configuration and metadata it was created with. */
    constructor (p: Lifecycle.Payment, id: int, tables: Tables, outcome: nat -> Outcome)
      requires Older(tables, 0) && tables.ledger == [] && tables.paypal == []
      ensures fresh(db) && Valid() && Now() == NEW_PAYMENT && this.p == p && this.id == id
      ensures db.committed == tables && db.Unfinished() == 0 && db.lockedInside == 0
    {
      this.p, this.id := p, id;
      db := new Database(tables, outcome);
      clock, jobs, served := 0, multiset{}, false;
    }

    /** Nothing was committed; time has passed. */
    method Abandon()
      modifies this`clock
      ensures Now() == Next(p, old(Now()), Idle) && clock == old(clock) + 1
    {
      clock := clock + 1;
    }

    // --- intents ----------------------------------------------------------------

    /** `IntentPaid` and its siblings: the status the caller read must be open, and no worker objects. */
    method AskForIntent(status: Status, wanted: Status, objected: bool) returns (tx: Option<PaymentTransaction>)
      modifies db`steps, db`failures
      ensures tx.Some? ==> status == Open && !objected
      ensures tx.Some? ==> tx.value.timestamp == clock && tx.value.status == wanted
                           && tx.value.subunits == p.subunits && tx.value.currency == p.currency
      ensures tx.Some? && wanted == Paid ==> tx.value.amount == p.amount
      ensures tx.Some? && wanted in {Authorized, Cancelled} ==> tx.value.amount == 0
      ensures tx.None? ==> status != Open || objected || db.Faulty(old(db.steps), db.steps)
      ensures db.steps >= old(db.steps)
    {
      if status != Open { return None; }
      var active := db.Check();
      if !active || objected { return None; }
      tx := Some(NewTransaction(p, Now(), wanted));
    }

    // --- the web handler ----------------------------------------------------------

    /** The opening entry, unless the payment has a transaction. */
    method OpenIfNew(objected: bool) returns (o: Outcome)
      modifies db`steps, db`failures, db`lockedInside, db`working
      ensures db.steps > old(db.steps)
      ensures db.lockedInside == old(db.lockedInside) + if o.Locked? then 1 else 0
      ensures var ledger := old(db.working).ledger;
              o.Done? ==>
                db.working == old(db.working).(
                  ledger := if CurrentStatus(ledger) == Uninitialized
                            then ledger + [PaymentTransaction(clock, 0 - p.amount, p.subunits, p.currency, Open)]
                            else ledger)
      ensures o.Locked? ==> db.Faulty(old(db.steps), db.steps)
      ensures !o.Done? ==>
                || db.Faulty(old(db.steps), db.steps)
                || (objected && CurrentStatus(old(db.working).ledger) == Uninitialized)
    {
      var processable := db.Update(db.working);
      if !processable { return Outcome.Failed; }
      if CurrentStatus(db.working.ledger) != Uninitialized { return Done; }
      var active := db.Check();
      if !active || objected { return Outcome.Failed; }
      o := db.Exec(db.working.(ledger := db.working.ledger + [NewTransaction(p, Now(), Open)]));
    }

    /** The statements of the web handler's transaction. */
    method VisitStatements(req: Request, objected: bool) returns (o: Outcome)
      requires Older(db.working, clock)
      modifies db`steps, db`failures, db`lockedInside, db`working
      ensures db.steps > old(db.steps)
      ensures db.lockedInside == old(db.lockedInside) + if o.Locked? then 1 else 0
      ensures o.Done? ==>
                && Older(db.working, clock + 1) && Visited(old(db.working), db.working, id, req)
                && db.working.paypal == old(db.working).paypal && db.working.fritzpay == old(db.working).fritzpay
                && db.working.ledger == if CurrentStatus(old(db.working).ledger) == Uninitialized
                                        then old(db.working).ledger
                                             + [PaymentTransaction(clock, 0 - p.amount, p.subunits, p.currency, Open)]
                                        else old(db.working).ledger
      ensures o.Locked? ==> db.Faulty(old(db.steps), db.steps)
      ensures !o.Done? ==> db.Faulty(old(db.steps), db.steps) || VisitRefused(old(db.working), req, objected)
    {
      o := SaveVisit(db, id, req, clock);
      if o.Done? {
        o := OpenIfNew(objected);
      }
    }

    /** No payment method is known, or a worker objects to the opening. */
    predicate VisitRefused(tables: Tables, req: Request, objected: bool) {
      || PaymentHandler.Visit(ViewOf(tables, id), req).config.methodId.None?
      || (objected && CurrentStatus(tables.ledger) == Uninitialized)
    }

    /** One transaction of the web handler, up to its commit, its end, or the jump back after a lock error. */
    method VisitAttempt(req: Request, objected: bool) returns (o: Outcome)
      requires Valid()
      modifies this`clock, this`served, db
      ensures Valid() && db.steps > old(db.steps)
      ensures o.Done? ==> Now() == Next(p, old(Now()), VisitPaymentPage)
      ensures o.Done? ==> Visited(old(db.committed), db.committed, id, req)
      ensures !o.Done? ==> Now() == old(Now()) && db.committed == old(db.committed)
      ensures o.Locked? ==> db.Faulty(old(db.steps), db.steps)
      ensures o.Failed? ==> db.Faulty(old(db.steps), db.steps) || VisitRefused(old(db.committed), req, objected)
      ensures db.Unfinished() - old(db.Unfinished()) == db.lockedInside - old(db.lockedInside)
    {
      var begun := db.Begin();
      if !begun { return Outcome.Failed; }
      o := VisitStatements(req, objected);
      match o {
        case Locked =>
        case Failed =>
          var undone := db.Rollback();
        case Done =>
          o := db.Commit();
          if o.Done? {
            served, clock := true, clock + 1;
          }
      }
    }

    /** `PaymentHandler`: whatever the retries, a request is applied once, as a whole, or not at all. */
    method VisitPage(req: Request, objected: bool, maxRetries: int) returns (ok: bool)
      requires Valid()
      modifies this`clock, this`served, db
      ensures Valid()
      ensures ok ==> Now() == Next(p, old(Now()), VisitPaymentPage)
      ensures ok ==> Visited(old(db.committed), db.committed, id, req)
      ensures !ok ==> Now() == Next(p, old(Now()), Idle) && db.committed == old(db.committed)
      ensures ok || maxRetries <= 0 || db.Faulty(old(db.steps), db.steps)
              || VisitRefused(old(db.committed), req, objected)
      ensures db.Unfinished() - old(db.Unfinished()) == db.lockedInside - old(db.lockedInside)
    {
      var retries := 0;
      while retries < maxRetries
        invariant Valid() && Now() == old(Now()) && db.committed == old(db.committed) && db.steps >= old(db.steps)
        invariant retries > 0 ==> db.Faulty(old(db.steps), db.steps)
        invariant db.Unfinished() - old(db.Unfinished()) == db.lockedInside - old(db.lockedInside)
      {
        var o := VisitAttempt(req, objected);
        if o.Done? { return true; }
        if o.Failed? { break; }
        retries := retries + 1;
      }
      Abandon();
      ok := false;
    }

    // --- FritzPay -------------------------------------------------------------------

    /** The statements of the FritzPay transaction: its own row for the payment, and the pending entry. */
    method PendingStatements(methodKey: string) returns (o: Outcome)
      modifies db`steps, db`failures, db`lockedInside, db`working
      ensures db.steps > old(db.steps)
      ensures db.lockedInside == old(db.lockedInside) + if o.Locked? then 1 else 0
      ensures o.Done? ==>
                && old(db.working).fritzpay in {None, Some(methodKey)}
                && db.working == old(db.working).(
                     fritzpay := Some(methodKey),
                     ledger := if CurrentStatus(old(db.working).ledger) == Pending then old(db.working).ledger
                               else old(db.working).ledger
                                    + [PaymentTransaction(clock, 0, p.subunits, p.currency, Pending)])
      ensures o.Locked? ==> db.Faulty(old(db.steps), db.steps)
      ensures !o.Done? ==>
                db.Faulty(old(db.steps), db.steps) || old(db.working).fritzpay !in {None, Some(methodKey)}
    {
      var read := db.Update(db.working);
      if !read { return Outcome.Failed; }
      if db.working.fritzpay.Some? && db.working.fritzpay.value != methodKey { return Outcome.Failed; }
      if db.working.fritzpay.None? {
        var inserted := db.Update(db.working.(fritzpay := Some(methodKey)));
        if !inserted { return Outcome.Failed; }
      }
      read := db.Update(db.working);
      if !read { return Outcome.Failed; }
      o := Done;
      if CurrentStatus(db.working.ledger) != Pending {
        o := db.Exec(db.working.(ledger := db.working.ledger + [NewTransaction(p, Now(), Pending)]));
      }
    }

    method PendingAttempt(methodKey: string) returns (o: Outcome)
      requires Valid() && served && p.provider == FritzPay
      modifies this`clock, db
      ensures Valid() && db.steps > old(db.steps)
      ensures o.Done? ==> Now() == Next(p, old(Now()), FritzPayInit) && db.committed.fritzpay == Some(methodKey)
      ensures !o.Done? ==> Now() == old(Now()) && db.committed == old(db.committed)
      ensures o.Locked? ==> db.Faulty(old(db.steps), db.steps)
      ensures o.Failed? ==>
                db.Faulty(old(db.steps), db.steps) || old(db.committed).fritzpay !in {None, Some(methodKey)}
      ensures db.committed == old(db.committed).(ledger := db.committed.ledger, fritzpay := db.committed.fritzpay)
      ensures db.Unfinished() - old(db.Unfinished()) == db.lockedInside - old(db.lockedInside)
    {
      var begun := db.Begin();
      if !begun { return Outcome.Failed; }
      o := PendingStatements(methodKey);
      match o {
        case Locked =>
        case Failed =>
          var undone := db.Rollback();
        case Done =>
          o := db.Commit();
          if o.Done? { clock := clock + 1; }
      }
    }

    /** The pending step of the FritzPay driver; a payment of another method of the provider is refused. */
    method FritzPayPending(methodKey: string, maxRetries: int) returns (ok: bool)
      requires Valid() && served && p.provider == FritzPay
      modifies this`clock, db
      ensures Valid()
      ensures ok ==> Now() == Next(p, old(Now()), FritzPayInit) && db.committed.fritzpay == Some(methodKey)
      ensures !ok ==> Now() == Next(p, old(Now()), Idle) && db.committed == old(db.committed)
      ensures ok || maxRetries <= 0 || db.Faulty(old(db.steps), db.steps)
              || old(db.committed).fritzpay !in {None, Some(methodKey)}
      ensures db.committed == old(db.committed).(ledger := db.committed.ledger, fritzpay := db.committed.fritzpay)
      ensures db.Unfinished() - old(db.Unfinished()) == db.lockedInside - old(db.lockedInside)
    {
      var retries := 0;
      while retries < maxRetries
        invariant Valid() && Now() == old(Now()) && db.committed == old(db.committed) && db.steps >= old(db.steps)
        invariant retries > 0 ==> db.Faulty(old(db.steps), db.steps)
        invariant db.Unfinished() - old(db.Unfinished()) == db.lockedInside - old(db.lockedInside)
      {
        var o := PendingAttempt(methodKey);
        if o.Done? { return true; }
        if o.Failed? { break; }
        retries := retries + 1;
      }
      Abandon();
      ok := false;
    }

    // --- PayPal -----------------------------------------------------------------------

    /** In an open transaction: what a request needs, the row that announces it, and the commit. */
    method SaveRequest(kind: Kind) returns (saved: bool)
      requires db.working == db.committed
      modifies this`clock, db
      ensures db.committed == old(db.committed).(
                paypal := old(db.committed).paypal + if saved then [Row(old(clock), kind, OtherIntent)] else [])
      ensures clock == old(clock) + if saved then 1 else 0
      ensures db.Unfinished() == old(db.Unfinished()) - 1 && db.lockedInside == old(db.lockedInside)
      ensures db.steps > old(db.steps) && (!saved ==> db.Faulty(old(db.steps), db.steps))
    {
      saved := false;
      var prepared := db.Check();
      if prepared {
        prepared := db.Update(db.working.(paypal := db.working.paypal + [Row(clock, kind, OtherIntent)]));
      }
      if prepared {
        var o := db.Commit();
        saved := o.Done?;
        if saved { clock := clock + 1; }
      } else {
        var undone := db.Rollback();
      }
    }

    /** The beginning of a transaction and its first query. */
    method BeginAndRead() returns (ok: bool)
      modifies db
      ensures db.committed == old(db.committed) == db.working && db.lockedInside == old(db.lockedInside)
      ensures db.Unfinished() == old(db.Unfinished()) + if ok then 1 else 0
      ensures db.steps > old(db.steps) && (!ok ==> db.Faulty(old(db.steps), db.steps))
    {
      ok := db.Begin();
      if ok {
        ok := db.Update(db.working);
        if !ok {
          var undone := db.Rollback();
        }
      }
    }

    /** Ends a transaction in which nothing was written. */
    method GiveUp()
      modifies this`clock, db
      ensures Now() == Next(p, old(Now()), Idle) && db.committed == old(db.committed)
      ensures db.Unfinished() == old(db.Unfinished()) - 1 && db.lockedInside == old(db.lockedInside)
      ensures db.steps > old(db.steps) && clock > old(clock)
    {
      var undone := db.Rollback();
      clock := clock + 1;
    }

    /** `InitPayment` of the PayPal driver: the first call records the request and starts its goroutine. */
    method InitPayment() returns (ok: bool)
      requires served && p.provider == PayPal
      modifies this`clock, this`jobs, db
      ensures ok ==> Now() == Next(p, old(Now()), PayPalInit)
      ensures !ok ==> Now() == Next(p, old(Now()), Idle)
      ensures ok || db.Faulty(old(db.steps), db.steps)
      ensures OnlyLogs(old(db.committed), db.committed) && clock > old(clock)
      ensures db.Unfinished() == old(db.Unfinished()) && db.lockedInside == old(db.lockedInside)
    {
      ok := BeginAndRead();
      if !ok {
        Abandon();
      } else if db.committed.paypal != [] {
        GiveUp();
      } else {
        ok := SaveRequest(CreatePayment);
        if ok { jobs := jobs + multiset{Creating}; }
        clock := clock + 1;
      }
    }

    /** `setPayPalError`: a row of its own, outside of any transaction. */
    method SetPayPalError() returns (saved: bool)
      modifies this`clock, db`steps, db`failures, db`committed
      ensures db.committed == old(db.committed).(
                paypal := old(db.committed).paypal
                          + if saved then [Row(old(clock), ErrorReported, OtherIntent)] else [])
      ensures clock == old(clock) + if saved then 1 else 0
      ensures db.steps > old(db.steps) && (!saved ==> db.Faulty(old(db.steps), db.steps))
    {
      var row := Row(clock, ErrorReported, OtherIntent);
      saved := db.Autocommit(db.committed.(paypal := db.committed.paypal + [row]));
      if saved { clock := clock + 1; }
    }

    /** The transaction of `doInit`: the response, and an error row behind a state other than "created". */
    method SaveResponse(intent: Intent, accepted: bool) returns (saved: bool)
      modifies this`clock, db
      ensures var created := if !saved then CreateLost else if accepted then Created(intent) else NotCreated(intent);
              && db.committed == old(db.committed).(paypal := old(db.committed).paypal + RowsOf(created, old(clock)))
              && clock == old(clock) + |RowsOf(created, old(clock))|
      ensures db.Unfinished() == old(db.Unfinished()) && db.lockedInside == old(db.lockedInside)
      ensures db.steps > old(db.steps) && (!saved ==> db.Faulty(old(db.steps), db.steps))
    {
      saved := false;
      var ok := db.Begin();
      if !ok { return; }
      var time := clock;
      ok := db.Update(db.working.(paypal := db.working.paypal + [Row(time, CreatePaymentResponse, intent)]));
      time := time + 1;
      if ok && !accepted {
        ok := db.Update(db.working.(paypal := db.working.paypal + [Row(time, ErrorReported, intent)]));
        time := time + 1;
      }
      if !ok {
        var undone := db.Rollback();
        return;
      }
      var o := db.Commit();
      saved := o.Done?;
      if saved { clock := time; }
    }

    /** What `doInit` writes, depending on the response. */
    method Answer(response: Response) returns (created: CreateOutcome)
      modifies this`clock, db
      ensures db.steps >= old(db.steps) && Follows(created, response, db.Faulty(old(db.steps), db.steps))
      ensures db.committed == old(db.committed).(paypal := old(db.committed).paypal + RowsOf(created, old(clock)))
      ensures clock == old(clock) + |RowsOf(created, old(clock))|
      ensures db.Unfinished() == old(db.Unfinished()) && db.lockedInside == old(db.lockedInside)
    {
      if response.NotSent? { return CreateLost; }
      if response.Delivered? {
        var saved := SaveResponse(response.intent, response.accepted);
        if saved {
          return if response.accepted then Created(response.intent) else NotCreated(response.intent);
        }
      }
      var reported := SetPayPalError();
      created := if reported then CreateFailed else CreateLost;
    }

    /** `doInit`: the goroutine ends with the response, an error row, or without a trace. */
    method DoInit(response: Response) returns (created: CreateOutcome)
      requires Creating in jobs
      modifies this`clock, this`jobs, db
      ensures Now() == Next(p, old(Now()), FinishCreate(created))
      ensures Follows(created, response, db.Faulty(old(db.steps), db.steps))
      ensures OnlyLogs(old(db.committed), db.committed) && clock > old(clock)
      ensures db.Unfinished() == old(db.Unfinished()) && db.lockedInside == old(db.lockedInside)
    {
      created := Answer(response);
      jobs, clock := jobs - multiset{Creating}, clock + 1;
    }

    /** `ReturnHandler`, for a payment that has a row with the nonce of the request. */
    method ReturnHandler() returns (ok: bool)
      modifies this`clock, this`jobs, db
      ensures ok ==> Now() == Next(p, old(Now()), ReturnFromPayPal)
      ensures !ok ==> Now() == Next(p, old(Now()), Idle)
      ensures ok || old(db.committed).paypal == [] || db.Faulty(old(db.steps), db.steps)
      ensures OnlyLogs(old(db.committed), db.committed) && clock > old(clock)
      ensures db.Unfinished() == old(db.Unfinished()) && db.lockedInside == old(db.lockedInside)
    {
      ok := BeginAndRead();
      if !ok {
        Abandon();
      } else if db.committed.paypal == [] {
        GiveUp();
        ok := false;
      } else {
        var current, status := LatestRow(db.committed.paypal), CurrentStatus(db.committed.ledger);
        if current.kind != CreatePaymentResponse {
          GiveUp();
        } else {
          StateReturned(p, Now());
          ok := SaveRequest(ExecutePayment);
          if ok { jobs := jobs + multiset{Executing(current.intent, status)}; }
          clock := clock + 1;
        }
      }
    }

    /** The `switch` of `executePayment`. Refusals of a known intent are recorded. */
    method IntentOf(job: Job, objected: bool) returns (tx: Option<PaymentTransaction>, reported: bool)
      requires job.Executing?
      modifies this`clock, db`steps, db`failures, db`committed
      ensures tx.Some? ==> job.status == Open && job.intent != OtherIntent && !objected
      ensures tx.Some? && job.intent == Sale ==>
                tx.value == PaymentTransaction(old(clock), p.amount, p.subunits, p.currency, Paid)
      ensures tx.Some? && job.intent == Authorize ==>
                tx.value == PaymentTransaction(old(clock), 0, p.subunits, p.currency, Authorized)
      ensures tx.None? && job.intent != OtherIntent ==>
                job.status != Open || objected || db.Faulty(old(db.steps), db.steps)
      ensures reported ==> tx.None? && job.intent != OtherIntent
      ensures tx.None? && job.intent != OtherIntent ==> reported || db.Faulty(old(db.steps), db.steps)
      ensures db.committed == old(db.committed).(
                paypal := old(db.committed).paypal
                          + if reported then [Row(old(clock), ErrorReported, OtherIntent)] else [])
      ensures clock == old(clock) + if reported then 1 else 0
    {
      tx, reported := None, false;
      match job.intent {
        case Sale => tx := AskForIntent(job.status, Paid, objected);
        case Authorize => tx := AskForIntent(job.status, Authorized, objected);
        case OtherIntent => return;
      }
      if tx.None? {
        reported := SetPayPalError();
      }
    }

    /** `executePayment` up to the request: the ledger entry is made here, with the time of now. */
    method AskToExecute(job: Job, objected: bool) returns (tx: Option<PaymentTransaction>, reported: bool)
      requires job in jobs && job.Executing?
      modifies this`clock, this`jobs, db`steps, db`failures, db`committed
      ensures Now() == Next(p, old(Now()), AskIntent(job, tx.Some?, reported))
      ensures tx.Some? ==> job.status == Open && Settling(tx.value) in jobs
      ensures tx.Some? && job.intent == Sale ==>
                tx.value == PaymentTransaction(old(clock), p.amount, p.subunits, p.currency, Paid)
      ensures tx.Some? && job.intent == Authorize ==>
                tx.value == PaymentTransaction(old(clock), 0, p.subunits, p.currency, Authorized)
      ensures tx.None? && job.intent != OtherIntent ==> reported || db.Faulty(old(db.steps), db.steps)
      ensures tx.None? && job.intent != OtherIntent ==>
                job.status != Open || objected || db.Faulty(old(db.steps), db.steps)
      ensures OnlyLogs(old(db.committed), db.committed) && clock > old(clock)
    {
      var left := jobs - multiset{job};
      ghost var before := Now();
      tx, reported := IntentOf(job, objected);
      StateAsked(p, before, job, tx, reported);
      jobs := if tx.Some? then left + multiset{Settling(tx.value)} else left;
      clock := clock + 1;
    }

    /**
     The transaction behind the response. The PayPal row and the ledger entry are
     statements of their own; only the commit makes them visible, both or none.
     */
    method SaveSettlement(tx: PaymentTransaction) returns (reportable: bool, saved: bool)
      modifies this`clock, db
      ensures db.committed == if !saved then old(db.committed)
                              else old(db.committed).(
                                paypal := old(db.committed).paypal
                                          + [Row(old(clock), ExecutePaymentResponse, OtherIntent)],
                                ledger := old(db.committed).ledger + [tx])
      ensures clock == old(clock) + if saved then 1 else 0
      ensures db.Unfinished() == old(db.Unfinished()) && db.lockedInside == old(db.lockedInside)
      ensures db.steps > old(db.steps) && (!saved ==> db.Faulty(old(db.steps), db.steps))
    {
      reportable, saved := false, false;
      var ok := db.Begin();
      if !ok { return; }
      var row := Row(clock, ExecutePaymentResponse, OtherIntent);
      ok := db.Update(db.working.(paypal := db.working.paypal + [row]));
      if ok {
        ok := db.Update(db.working.(ledger := db.working.ledger + [tx]));
      }
      if ok && tx.status == Authorized {
        ok := db.Update(db.working);
      }
      if !ok {
        var undone := db.Rollback();
        return true, false;
      }
      var o := db.Commit();
      saved := o.Done?;
      if saved { clock := clock + 1; }
    }

    /** What `executePayment` writes, depending on the response. */
    method Conclude(tx: PaymentTransaction, response: Response) returns (settled: SettleOutcome)
      modifies this`clock, db
      ensures settled == SettleCommitted ==> response.Delivered?
      ensures response.Delivered? && settled != SettleCommitted ==> db.Faulty(old(db.steps), db.steps)
      ensures response.BadBody? && settled != SettleFailed ==> db.Faulty(old(db.steps), db.steps)
      ensures db.committed == match settled
                              case SettleLost => old(db.committed)
                              case SettleFailed => old(db.committed).(
                                paypal := old(db.committed).paypal + [Row(old(clock), ErrorReported, OtherIntent)])
                              case SettleCommitted => old(db.committed).(
                                paypal := old(db.committed).paypal
                                          + [Row(old(clock), ExecutePaymentResponse, OtherIntent)],
                                ledger := old(db.committed).ledger + [tx])
      ensures clock == old(clock) + if settled == SettleLost then 0 else 1
      ensures db.Unfinished() == old(db.Unfinished()) && db.lockedInside == old(db.lockedInside)
    {
      if response.NotSent? || response.NoResponse? { return SettleLost; }
      if response.Delivered? {
        var reportable, saved := SaveSettlement(tx);
        if saved { return SettleCommitted; }
        if !reportable { return SettleLost; }
      }
      var reported := SetPayPalError();
      settled := if reported then SettleFailed else SettleLost;
    }

    /** `executePayment` once PayPal has answered. */
    method Settle(tx: PaymentTransaction, response: Response) returns (settled: SettleOutcome)
      requires Settling(tx) in jobs
      modifies this`clock, this`jobs, db
      ensures Now() == Next(p, old(Now()), FinishExecute(tx, settled))
      ensures settled == SettleCommitted ==> response.Delivered?
      ensures response.Delivered? && settled != SettleCommitted ==> db.Faulty(old(db.steps), db.steps)
      ensures response.BadBody? && settled != SettleFailed ==> db.Faulty(old(db.steps), db.steps)
      ensures OnlyLogs(old(db.committed), db.committed) && clock > old(clock)
      ensures db.Unfinished() == old(db.Unfinished()) && db.lockedInside == old(db.lockedInside)
    {
      settled := Conclude(tx, response);
      jobs, clock := jobs - multiset{Settling(tx)}, clock + 1;
    }

    /** What a cancellation writes: nothing on a cancelled payment, refused unless the payment is open. */
    method CancelEntry(objected: bool) returns (ok: bool)
      modifies db`steps, db`failures, db`working
      ensures db.steps >= old(db.steps)
      ensures var tables := old(db.working); var status := CurrentStatus(tables.ledger);
              && (ok ==> status == Open || status == Cancelled)
              && (ok ==> db.working == if status == Cancelled then tables
                                       else tables.(ledger := tables.ledger
                                                  + [PaymentTransaction(clock, 0, p.subunits, p.currency, Cancelled)]))
              && (!ok ==> db.Faulty(old(db.steps), db.steps) || (status != Cancelled && (objected || status != Open)))
    {
      var status := CurrentStatus(db.working.ledger);
      if status == Cancelled { return true; }
      var tx := AskForIntent(status, Cancelled, objected);
      if tx.None? { return false; }
      ok := db.Update(db.working.(ledger := db.working.ledger + [tx.value]));
    }

    /** The rest of an open transaction that cancels, up to its commit or its end. */
    method CancelStatements(objected: bool) returns (ok: bool)
      requires db.working == db.committed
      modifies db
      ensures var tables := old(db.committed); var status := CurrentStatus(tables.ledger);
              && (ok ==> status == Open || status == Cancelled)
              && (db.committed == if !ok || status == Cancelled then tables
                                  else tables.(ledger := tables.ledger
                                             + [PaymentTransaction(clock, 0, p.subunits, p.currency, Cancelled)]))
              && (!ok ==> db.Faulty(old(db.steps), db.steps) || (status != Cancelled && (objected || status != Open)))
      ensures db.Unfinished() == old(db.Unfinished()) - 1 && db.lockedInside == old(db.lockedInside)
      ensures db.steps > old(db.steps)
    {
      ok := CancelEntry(objected);
      if ok {
        var o := db.Commit();
        ok := o.Done?;
      } else {
        var undone := db.Rollback();
      }
    }

    /** No row has the nonce, or the payment is neither cancelled nor open without objection. */
    predicate CancelRefused(objected: bool)
      reads db
    {
      var status := CurrentStatus(db.committed.ledger);
      db.committed.paypal == [] || (status != Cancelled && (objected || status != Open))
    }

    /** `CancelHandler`. A payment already cancelled commits nothing; other states but open are refused. */
    method CancelHandler(objected: bool) returns (ok: bool)
      modifies this`clock, db
      ensures ok ==> Now() == Next(p, old(Now()), CancelAtPayPal)
      ensures !ok ==> Now() == Next(p, old(Now()), Idle)
      ensures ok || old(CancelRefused(objected)) || db.Faulty(old(db.steps), db.steps)
      ensures OnlyLogs(old(db.committed), db.committed) && clock > old(clock)
      ensures db.Unfinished() == old(db.Unfinished()) && db.lockedInside == old(db.lockedInside)
    {
      ok := BeginAndRead();
      if !ok {
        Abandon();
      } else if db.committed.paypal == [] {
        GiveUp();
        ok := false;
      } else {
        ok := CancelStatements(objected);
        clock := clock + 1;
      }
    }
  }

  /** Configuration, metadata and the FritzPay row stay as they are. */
  predicate OnlyLogs(before: Tables, after: Tables) {
    after == before.(ledger := after.ledger, paypal := after.paypal)
  }

  /** What may happen to the server from outside. */
  datatype Call =
    | Visit(req: Request, visitObjected: bool)
    | Process(methodKey: string)
    | Init
    | CreateAnswered(create: Response)
    | Return
    | Execute(job: Job, objected: bool)
    | ExecuteAnswered(tx: PaymentTransaction, execute: Response)
    | Cancel(cancelObjected: bool)

  /** The view behind an event: only a visit changes it. */
  function Seen(view: View, call: Call, e: Event): View {
    if call.Visit? && e == VisitPaymentPage then PaymentHandler.Visit(view, call.req) else view
  }

  /** One call, if it can occur now. */
  method Handle(server: PaymentServer, call: Call, maxRetries: int) returns (e: Event)
    requires server.Valid()
    modifies server`clock, server`jobs, server`served, server.db
    ensures server.Valid()
    ensures server.Now() == Next(server.p, old(server.Now()), e)
    ensures ViewOf(server.db.committed, server.id) == Seen(old(ViewOf(server.db.committed, server.id)), call, e)
    ensures server.db.Unfinished() - old(server.db.Unfinished()) == server.db.lockedInside - old(server.db.lockedInside)
  {
    match call {
      case Visit(req, objected) =>
        var ok := server.VisitPage(req, objected, maxRetries);
        return if ok then VisitPaymentPage else Idle;
      case Process(methodKey) =>
        if server.served && server.p.provider == FritzPay {
          var ok := server.FritzPayPending(methodKey, maxRetries);
          return if ok then FritzPayInit else Idle;
        }
      case Init =>
        if server.served && server.p.provider == PayPal {
          var ok := server.InitPayment();
          return if ok then PayPalInit else Idle;
        }
      case CreateAnswered(response) =>
        if Creating in server.jobs {
          var created := server.DoInit(response);
          return FinishCreate(created);
        }
      case Return =>
        var ok := server.ReturnHandler();
        return if ok then ReturnFromPayPal else Idle;
      case Execute(job, objected) =>
        if job in server.jobs && job.Executing? {
          var tx, reported := server.AskToExecute(job, objected);
          return AskIntent(job, tx.Some?, reported);
        }
      case ExecuteAnswered(tx, response) =>
        if Settling(tx) in server.jobs {
          var settled := server.Settle(tx, response);
          return FinishExecute(tx, settled);
        }
      case Cancel(objected) =>
        var ok := server.CancelHandler(objected);
        return if ok then CancelAtPayPal else Idle;
    }
    server.Abandon();
    e := Idle;
  }

  /** The requests of the visits that took effect. */
  function Committed(calls: seq<Call>, run: seq<Event>): seq<Request>
    requires |calls| == |run|
  {
    if calls == [] then []
    else
      var n := |calls| - 1;
      Committed(calls[..n], run[..n])
      + if calls[n].Visit? && run[n] == VisitPaymentPage then [calls[n].req] else []
  }

  /** One settlement at most, recorded exactly with the execute response, and a balance that is zero or owed. */
  ghost predicate Sound(p: Lifecycle.Payment, s: State) {
    && CountStatus(s.ledger, Paid) + CountStatus(s.ledger, Authorized)
       == multiset(Kinds(s.rows))[ExecutePaymentResponse] <= 1
    && BalanceOf(s.ledger)
       == if s.ledger == [] then map[]
          else map[p.currency := (if CountStatus(s.ledger, Paid) > 0 then 0 else 0 - p.amount, p.subunits)]
  }

  lemma RunSound(p: Lifecycle.Payment, run: seq<Event>)
    ensures Sound(p, After(p, run))
  {
    AtMostOneSettlement(p, run);
    BalanceOfRun(p, run);
  }

  /** Where a server is after some calls: at the end of a run of as many events. */
  ghost predicate Reached(server: PaymentServer, view: View, calls: seq<Call>, run: seq<Event>)
    reads server, server.db
  {
    && server.Valid() && |run| == |calls| && server.Now() == After(server.p, run)
    && ViewOf(server.db.committed, server.id) == Visits(view, Committed(calls, run))
    && server.db.Unfinished() == server.db.lockedInside
  }

  /** One call more: the run is extended by its event. */
  method Advance(server: PaymentServer, ghost view: View, ghost done: seq<Call>, run: seq<Event>, call: Call,
                 ghost calls: seq<Call>, maxRetries: int)
    returns (longer: seq<Event>)
    requires Reached(server, view, done, run) && calls == done + [call]
    modifies server`clock, server`jobs, server`served, server.db
    ensures |longer| == |run| + 1 && longer[..|run|] == run
    ensures Reached(server, view, calls, longer)
  {
    var e := Handle(server, call, maxRetries);
    longer := run + [e];
    OneMore(server.p, run, e);
    OneMoreVisit(view, done, run, call, e);
  }

  method AdvanceAll(server: PaymentServer, ghost view: View, calls: seq<Call>, maxRetries: int)
    returns (run: seq<Event>)
    requires Reached(server, view, [], [])
    modifies server`clock, server`jobs, server`served, server.db
    ensures Reached(server, view, calls, run)
    decreases |calls|
  {
    if calls == [] { return []; }
    var n := |calls| - 1;
    run := AdvanceAll(server, view, calls[..n], maxRetries);
    run := Advance(server, view, calls[..n], run, calls[n], calls, maxRetries);
  }

  /**
   Any schedule of calls on a new payment is a run: one settlement at most, the
   execute response recorded exactly with it, the balance zero or owed, the view
   of the payment as its committed visits left it, and a transaction unfinished
   for each lock error inside one that is begun anew.
   */
  method Serve(p: Lifecycle.Payment, id: int, tables: Tables, outcome: nat -> Outcome, calls: seq<Call>,
               maxRetries: int)
    returns (server: PaymentServer, run: seq<Event>)
    requires Older(tables, 0) && tables.ledger == [] && tables.paypal == []
    ensures server.p == p && server.id == id && Reached(server, ViewOf(tables, id), calls, run)
    ensures Sound(p, server.Now())
  {
    server := new PaymentServer(p, id, tables, outcome);
    run := AdvanceAll(server, ViewOf(tables, id), calls, maxRetries);
    ReachedSound(server, ViewOf(tables, id), calls, run);
  }

  lemma ReachedSound(server: PaymentServer, view: View, calls: seq<Call>, run: seq<Event>)
    requires Reached(server, view, calls, run)
    ensures Sound(server.p, server.Now())
  {
    RunSound(server.p, run);
  }

  lemma OneMoreVisit(view: View, calls: seq<Call>, run: seq<Event>, call: Call, e: Event)
    requires |calls| == |run|
    ensures Visits(view, Committed(calls + [call], run + [e])) == Seen(Visits(view, Committed(calls, run)), call, e)
  {
    assert (calls + [call])[..|calls|] == calls && (run + [e])[..|run|] == run;
    if call.Visit? && e == VisitPaymentPage {
      var reqs := Committed(calls, run);
      assert (reqs + [call.req])[..|reqs|] == reqs;
    } else {
      assert Committed(calls, run) + [] == Committed(calls, run);
    }
  }
}
