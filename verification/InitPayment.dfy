/**
 The retrying transaction that creates a payment. The database may refuse any
 step; error 1213 rolls the whole transaction back.
 */
module InitPayment {
  import opened Wrappers
  import opened Transactions

  datatype Config = Config(paymentMethodId: Option<int>, locale: Option<string>, callbackKey: Option<string>)

  datatype Row =
    | PaymentRow(id: nat, projectId: int, ident: string, amount: int)
    | ConfigRow(projectId: int, paymentId: nat, config: Config)
    | MetadataRow(projectId: int, paymentId: nat, name: string, value: string)
    | TokenRow(projectId: int, paymentId: nat, token: string)

  predicate IdentUsed(rows: seq<Row>, projectId: int, ident: string) {
    exists i :: 0 <= i < |rows| && rows[i].PaymentRow? && rows[i].projectId == projectId && rows[i].ident == ident
  }

  /** Idents are unique in a project; every payment has its own identifier, handed out before. */
  ghost predicate Consistent(rows: seq<Row>, lastId: nat) {
    && (forall i, j :: 0 <= i < j < |rows| && rows[i].PaymentRow? && rows[j].PaymentRow? ==>
          rows[i].id != rows[j].id && (rows[i].projectId != rows[j].projectId || rows[i].ident != rows[j].ident))
    && (forall i :: 0 <= i < |rows| && rows[i].PaymentRow? ==> rows[i].id <= lastId)
  }

  type Payments = Database<seq<Row>>

  /** The counter behind the identifiers of payments, which no rollback turns back, and the random numbers. */
  class Generator {
    var lastId: nat
    const random: nat -> string

    constructor (random: nat -> string)
      ensures lastId == 0
    {
      lastId, this.random := 0, random;
    }
  }

  ghost predicate Valid(db: Payments, ids: Generator)
    reads db, ids
  {
    Consistent(db.committed, ids.lastId)
  }

  class Payment {
    const projectId: int
    const ident: string
    const amount: int
    const config: Config
    const metadata: Option<map<string, string>>
    var id: nat

    constructor (projectId: int, ident: string, amount: int, config: Config, metadata: Option<map<string, string>>)
      ensures this.projectId == projectId && this.ident == ident && this.amount == amount
      ensures this.config == config && this.metadata == metadata && id == 0
    {
      this.projectId, this.ident, this.amount, this.config, this.metadata := projectId, ident, amount, config, metadata;
      id := 0;
    }
  }

  /** An order in which the entries of a map were visited. */
  predicate Enumerates(order: seq<string>, m: map<string, string>) {
    && (forall i :: 0 <= i < |order| ==> order[i] in m)
    && (forall i, j :: 0 <= i < j < |order| ==> order[i] != order[j])
    && |order| == |m|
  }

  function MetadataRows(projectId: int, id: nat, m: map<string, string>, order: seq<string>): (rows: seq<Row>)
    requires forall i :: 0 <= i < |order| ==> order[i] in m
    ensures |rows| == |order|
  {
    seq(|order|, i requires 0 <= i < |order| => MetadataRow(projectId, id, order[i], m[order[i]]))
  }

  datatype CreateError = NoError | ErrDB | ErrDBLockTimeout | ErrDuplicateIdent | ErrPaymentCallbackConfig
    | ErrPaymentMethod | ErrInternal

  predicate IsOrder(order: seq<string>, m: Option<map<string, string>>) {
    match m case None => order == [] case Some(entries) => Enumerates(order, entries)
  }

  function EntryRows(p: Payment, id: nat, order: seq<string>): seq<Row>
    requires IsOrder(order, p.metadata)
  {
    if p.metadata.Some? then MetadataRows(p.projectId, id, p.metadata.value, order) else []
  }

  /** What the transaction of a payment holds before its token. */
  function PaymentRows(p: Payment, id: nat, order: seq<string>): seq<Row>
    requires IsOrder(order, p.metadata)
  {
    [PaymentRow(id, p.projectId, p.ident, p.amount)] + [ConfigRow(p.projectId, id, p.config)] + EntryRows(p, id, order)
  }

  /** An error is either one lock error or a failure. */
  predicate Counted(err: CreateError, failures: int, locked: int) {
    match err
    case NoError => failures == locked == 0
    case ErrDBLockTimeout => failures == 0 && locked == 1
    case _ => failures > 0 && locked == 0
  }

  /** `SetPaymentConfig`: a chosen method must be the project's own and active. */
  method SetPaymentConfig(db: Payments, p: Payment) returns (err: CreateError)
    modifies db`steps, db`failures, db`lockedInside, db`working
    ensures Counted(err, db.failures - old(db.failures), db.lockedInside - old(db.lockedInside))
    ensures err.NoError? ==> db.working == old(db.working) + [ConfigRow(p.projectId, p.id, p.config)]
    ensures db.steps >= old(db.steps)
    ensures err != ErrDuplicateIdent
  {
    if p.config.paymentMethodId.Some? {
      var o := db.Exec(db.working);
      if o.Locked? { return ErrDBLockTimeout; }
      if o.Failed? { return ErrDB; }
      var usable := db.Check();
      if !usable { return ErrPaymentMethod; }
    }
    var o := db.Exec(db.working + [ConfigRow(p.projectId, p.id, p.config)]);
    err := match o case Done => NoError case Locked => ErrDBLockTimeout case Failed => ErrDB;
  }

  /** `SetPaymentMetadata`: one row for each entry, in whatever order the map is visited. */
  method SetPaymentMetadata(db: Payments, p: Payment) returns (err: CreateError, ghost order: seq<string>)
    modifies db`steps, db`failures, db`lockedInside, db`working
    ensures Counted(err, db.failures - old(db.failures), db.lockedInside - old(db.lockedInside))
    ensures err.NoError? ==>
              IsOrder(order, p.metadata) && db.working == old(db.working) + EntryRows(p, p.id, order)
    ensures db.steps >= old(db.steps)
    ensures err != ErrDuplicateIdent
  {
    order := [];
    if p.metadata.None? { return NoError, []; }
    var m := p.metadata.value;
    var todo := m.Keys;
    while todo != {}
      invariant todo <= m.Keys
      invariant forall i :: 0 <= i < |order| ==> order[i] in m && order[i] !in todo
      invariant forall i, j :: 0 <= i < j < |order| ==> order[i] != order[j]
      invariant |order| + |todo| == |m.Keys|
      invariant db.failures == old(db.failures) && db.lockedInside == old(db.lockedInside) && db.steps >= old(db.steps)
      invariant db.working == old(db.working) + MetadataRows(p.projectId, p.id, m, order)
      decreases |todo|
    {
      var name :| name in todo;
      var o := db.Exec(db.working + [MetadataRow(p.projectId, p.id, name, m[name])]);
      if o.Locked? { return ErrDBLockTimeout, order; }
      if o.Failed? { return ErrDB, order; }
      RowsExtended(p.projectId, p.id, m, order, name);
      order := order + [name];
      todo := todo - {name};
    }
    err := NoError;
  }

  lemma RowsExtended(projectId: int, id: nat, m: map<string, string>, order: seq<string>, name: string)
    requires name in m && forall i :: 0 <= i < |order| ==> order[i] in m
    ensures MetadataRows(projectId, id, m, order + [name])
         == MetadataRows(projectId, id, m, order) + [MetadataRow(projectId, id, name, m[name])]
  {
  }

  /** `InsertPaymentTx`: the unique index refuses an ident that is in use. */
  method InsertPayment(db: Payments, ids: Generator, p: Payment) returns (o: Outcome, id: nat)
    modifies db`steps, db`failures, db`lockedInside, db`working, ids`lastId
    ensures db.failures == old(db.failures) + if o.Failed? then 1 else 0
    ensures db.lockedInside == old(db.lockedInside) + if o.Locked? then 1 else 0
    ensures o.Done? ==> !IdentUsed(db.committed, p.projectId, p.ident) && id == ids.lastId == old(ids.lastId) + 1
                        && db.working == old(db.working) + [PaymentRow(id, p.projectId, p.ident, p.amount)]
    ensures !o.Done? ==> ids.lastId == old(ids.lastId)
    ensures db.steps == old(db.steps) + 1 && (o.Locked? ==> !db.outcome(old(db.steps)).Done?)
  {
    id := ids.lastId + 1;
    var used := IdentUsed(db.committed, p.projectId, p.ident);
    o := db.Exec(if used then db.working else db.working + [PaymentRow(id, p.projectId, p.ident, p.amount)]);
    if used && o.Done? {
      o, db.failures := Failed, db.failures + 1;
    }
    if o.Done? { ids.lastId := id; }
  }

  /** `CreatePayment`. */
  method CreatePayment(db: Payments, ids: Generator, p: Payment) returns (err: CreateError, ghost order: seq<string>)
    modifies db`steps, db`failures, db`lockedInside, db`working, ids`lastId, p
    ensures Counted(err, db.failures - old(db.failures), db.lockedInside - old(db.lockedInside))
    ensures err.NoError? ==>
              && IsOrder(order, p.metadata)
              && db.working == old(db.working) + PaymentRows(p, p.id, order)
              && !IdentUsed(db.committed, p.projectId, p.ident)
              && old(ids.lastId) < p.id == ids.lastId
    ensures err.ErrDuplicateIdent? ==> IdentUsed(db.committed, p.projectId, p.ident)
    ensures db.steps >= old(db.steps)
    ensures IdentUsed(db.committed, p.projectId, p.ident) ==>
              err.ErrDuplicateIdent? || db.Faulty(old(db.steps), db.steps)
    ensures ids.lastId >= old(ids.lastId) && (p.id == old(p.id) || p.id == ids.lastId)
  {
    order := [];
    if p.config.callbackKey.Some? {
      var read := db.Check();
      if !read { return ErrDB, []; }
      var matches := db.Check();
      if !matches { return ErrPaymentCallbackConfig, []; }
    }
    var o, id := InsertPayment(db, ids, p);
    if o.Locked? { return ErrDBLockTimeout, []; }
    if o.Failed? {
      var read := db.Update(db.working);
      return if read && IdentUsed(db.committed, p.projectId, p.ident) then ErrDuplicateIdent else ErrDB, [];
    }
    p.id := id;
    err := SetPaymentConfig(db, p);
    if err.NoError? {
      ghost var before := db.working;
      err, order := SetPaymentMetadata(db, p);
      assert err.NoError? ==> db.working == before + EntryRows(p, p.id, order);
      if err.NoError? { RowsJoined(old(db.working), p, p.id, order); }
    }
  }

  lemma RowsJoined(rows: seq<Row>, p: Payment, id: nat, order: seq<string>)
    requires IsOrder(order, p.metadata)
    ensures rows + [PaymentRow(id, p.projectId, p.ident, p.amount)] + [ConfigRow(p.projectId, id, p.config)]
            + EntryRows(p, id, order) == rows + PaymentRows(p, id, order)
  {
  }

  /** `CreatePaymentToken`. */
  method CreatePaymentToken(db: Payments, ids: Generator, p: Payment) returns (err: CreateError, token: string)
    modifies db`steps, db`failures, db`lockedInside, db`working
    ensures Counted(err, db.failures - old(db.failures), db.lockedInside - old(db.lockedInside))
    ensures err.NoError? ==> db.working == old(db.working) + [TokenRow(p.projectId, p.id, token)]
    ensures db.steps >= old(db.steps)
    ensures err != ErrDuplicateIdent
  {
    token := ids.random(db.steps);
    var generated := db.Check();
    if !generated { return ErrInternal, token; }
    var o := db.Exec(db.working + [TokenRow(p.projectId, p.id, token)]);
    err := match o case Done => NoError case Locked => ErrDBLockTimeout case Failed => ErrDB;
  }

  datatype Response = Success(id: nat, token: string) | ErrDatabase | ErrConflict | ErrSystem | ErrInval

  /** `handlePaymentServiceErr`, and the answer to a bad callback configuration. */
  function Answer(err: CreateError): Response {
    match err
    case ErrDB => ErrDatabase
    case ErrDuplicateIdent => ErrConflict
    case ErrPaymentCallbackConfig => ErrInval
    case _ => ErrSystem
  }

  /** All rows of one payment. */
  function Group(p: Payment, id: nat, order: seq<string>, token: string): seq<Row>
    requires IsOrder(order, p.metadata)
  {
    PaymentRows(p, id, order) + [TokenRow(p.projectId, id, token)]
  }

  lemma {:induction false} DistinctCount(order: seq<string>)
    requires forall i, j :: 0 <= i < j < |order| ==> order[i] != order[j]
    ensures |set name | name in order| == |order|
    decreases |order|
  {
    if order == [] {
      assert (set name | name in order) == {};
    } else {
      var n := |order| - 1;
      DistinctCount(order[..n]);
      assert order == order[..n] + [order[n]];
      assert (set name | name in order) == (set name | name in order[..n]) + {order[n]};
    }
  }

  lemma SubsetOfSameSize(a: set<string>, b: set<string>)
    requires a <= b && |a| == |b|
    ensures a == b
  {
    assert b == a + (b - a);
  }

  /** An enumeration visits every entry. */
  lemma OrderCovers(order: seq<string>, m: map<string, string>)
    requires Enumerates(order, m)
    ensures forall name :: name in m <==> name in order
  {
    var names := set name | name in order;
    DistinctCount(order);
    SubsetOfSameSize(names, m.Keys);
    assert forall name :: name in order <==> name in names;
  }

  /**
   The rows of a payment are one payment row, one configuration row, one token
   row, and one row for each entry of its metadata, and no others.
   */
  lemma GroupContents(p: Payment, id: nat, order: seq<string>, token: string, row: Row)
    requires IsOrder(order, p.metadata)
    ensures var m := if p.metadata.Some? then p.metadata.value else map[];
            && |Group(p, id, order, token)| == 3 + |m|
            && (row in Group(p, id, order, token)
                <==> || row == PaymentRow(id, p.projectId, p.ident, p.amount)
                     || row == ConfigRow(p.projectId, id, p.config)
                     || row == TokenRow(p.projectId, id, token)
                     || (row.MetadataRow? && row.name in m
                         && row == MetadataRow(p.projectId, id, row.name, m[row.name])))
  {
    var m := if p.metadata.Some? then p.metadata.value else map[];
    var entries := EntryRows(p, id, order);
    if p.metadata.Some? { OrderCovers(order, m); }
    EntryIn(p, id, order, row, m);
  }

  lemma EntryIn(p: Payment, id: nat, order: seq<string>, row: Row, m: map<string, string>)
    requires IsOrder(order, p.metadata) && m == (if p.metadata.Some? then p.metadata.value else map[])
    requires forall name :: name in m <==> name in order
    ensures |EntryRows(p, id, order)| == |m|
    ensures row in EntryRows(p, id, order)
       <==> row.MetadataRow? && row.name in m && row == MetadataRow(p.projectId, id, row.name, m[row.name])
  {
    var rows := EntryRows(p, id, order);
    if row.MetadataRow? && row.name in m && row == MetadataRow(p.projectId, id, row.name, m[row.name]) {
      var i :| 0 <= i < |order| && order[i] == row.name;
      assert rows[i] == row;
    }
  }

  lemma GroupConsistent(rows: seq<Row>, lastId: nat, p: Payment, id: nat, order: seq<string>, token: string)
    requires Consistent(rows, lastId) && lastId < id && !IdentUsed(rows, p.projectId, p.ident)
    requires IsOrder(order, p.metadata)
    ensures Consistent(rows + Group(p, id, order, token), id)
  {
    var group := Group(p, id, order, token);
    assert forall i :: 0 < i < |group| ==> !group[i].PaymentRow?;
  }

  /** The work between begin and commit: payment, token, then the signed response. */
  method Fill(db: Payments, ids: Generator, p: Payment)
    returns (err: CreateError, token: string, ghost order: seq<string>)
    requires db.working == db.committed
    modifies db`steps, db`failures, db`lockedInside, db`working, ids`lastId, p
    ensures Counted(err, db.failures - old(db.failures), db.lockedInside - old(db.lockedInside))
    ensures err.NoError? ==>
              && IsOrder(order, p.metadata)
              && db.working == db.committed + Group(p, p.id, order, token)
              && !IdentUsed(db.committed, p.projectId, p.ident)
              && old(ids.lastId) < p.id == ids.lastId
    ensures err.ErrDuplicateIdent? ==> IdentUsed(db.committed, p.projectId, p.ident)
    ensures db.steps >= old(db.steps)
    ensures IdentUsed(db.committed, p.projectId, p.ident) ==>
              err.ErrDuplicateIdent? || db.Faulty(old(db.steps), db.steps)
    ensures ids.lastId >= old(ids.lastId) && (p.id == old(p.id) || p.id == ids.lastId)
  {
    token := "";
    err, order := CreatePayment(db, ids, p);
    if err.NoError? {
      err, token := CreatePaymentToken(db, ids, p);
    }
    if err.NoError? {
      var prepared := db.Check();
      if !prepared { err := ErrInternal; }
    }
  }

  /** One transaction, from `beginTx` to the answer, or to the jump back after a lock error. */
  method Attempt(db: Payments, ids: Generator, p: Payment) returns (result: Option<Response>, ghost order: seq<string>)
    requires Valid(db, ids) && p.id <= ids.lastId
    modifies db, ids`lastId, p
    ensures Valid(db, ids) && p.id <= ids.lastId && ids.lastId >= old(ids.lastId)
    ensures db.begins <= old(db.begins) + 1
    ensures db.Unfinished() == old(db.Unfinished()) + db.lockedInside - old(db.lockedInside)
    ensures db.lockedInside - old(db.lockedInside) + db.lockedAtCommit - old(db.lockedAtCommit)
         == if result.None? then 1 else 0
    ensures result.None? ==> db.begins == old(db.begins) + 1
    ensures db.failures > old(db.failures) <==> result.Some? && !result.value.Success?
    ensures db.failures >= old(db.failures)
    ensures if result.Some? && result.value.Success?
            then IsOrder(order, p.metadata) && result.value.id == p.id > old(ids.lastId)
                 && db.committed == old(db.committed) + Group(p, p.id, order, result.value.token)
            else db.committed == old(db.committed)
    ensures result == Some(ErrConflict) ==> IdentUsed(db.committed, p.projectId, p.ident)
    ensures db.steps >= old(db.steps)
    ensures IdentUsed(old(db.committed), p.projectId, p.ident) ==>
              result == Some(ErrConflict) || db.Faulty(old(db.steps), db.steps)
  {
    order := [];
    var begun := db.Begin();
    if !begun { return Some(ErrDatabase), []; }
    ghost var lastId := ids.lastId;
    var err, token;
    err, token, order := Fill(db, ids, p);
    match err {
      case ErrDBLockTimeout =>
        return None, [];
      case NoError =>
        GroupConsistent(db.committed, lastId, p, p.id, order, token);
        var o := db.Commit();
        match o {
          case Done => return Some(Success(p.id, token)), order;
          case Failed => return Some(ErrDatabase), [];
          case Locked => return None, [];
        }
      case _ =>
        var undone := db.Rollback();
        return Some(if undone then Answer(err) else ErrDatabase), [];
    }
  }

  /**
   The transaction loop of the handler. It succeeds exactly when nothing but lock
   errors came in the way, and fewer of those than retries are allowed. Success
   means one transaction with all rows of the payment, anything else none. Each
   lock error inside a transaction leaves one transaction that the program never
   finishes; no other outcome does.
   */
  method InitPayment(db: Payments, ids: Generator, p: Payment, maxRetries: int)
    returns (resp: Response, ghost order: seq<string>)
    requires Valid(db, ids) && p.id <= ids.lastId
    modifies db, ids`lastId, p
    ensures Valid(db, ids) && p.id <= ids.lastId
    ensures db.begins - old(db.begins) <= if maxRetries > 0 then maxRetries else 0
    ensures var locked := db.lockedInside - old(db.lockedInside) + db.lockedAtCommit - old(db.lockedAtCommit);
            && db.begins - old(db.begins) <= locked + 1
            && (resp.Success? <==> db.failures == old(db.failures) && locked < maxRetries)
    ensures resp.Success? ==> IsOrder(order, p.metadata) && resp.id == p.id > old(ids.lastId)
                              && db.committed == old(db.committed) + Group(p, p.id, order, resp.token)
    ensures !resp.Success? ==> db.committed == old(db.committed)
    ensures resp.ErrConflict? ==> IdentUsed(old(db.committed), p.projectId, p.ident)
    ensures IdentUsed(old(db.committed), p.projectId, p.ident) && maxRetries > 0 ==>
              resp.ErrConflict? || db.Faulty(old(db.steps), db.steps)
    ensures db.Unfinished() == old(db.Unfinished()) + db.lockedInside - old(db.lockedInside)
  {
    order := [];
    var retries := 0;
    while retries < maxRetries
      invariant Valid(db, ids) && p.id <= ids.lastId && old(ids.lastId) <= ids.lastId
      invariant retries == db.lockedInside - old(db.lockedInside) + db.lockedAtCommit - old(db.lockedAtCommit)
      invariant 0 <= retries && (retries == 0 || retries <= maxRetries)
      invariant retries == db.begins - old(db.begins) && db.failures == old(db.failures)
      invariant db.committed == old(db.committed) && db.steps >= old(db.steps)
      invariant IdentUsed(old(db.committed), p.projectId, p.ident) && retries > 0 ==> db.Faulty(old(db.steps), db.steps)
      invariant db.Unfinished() == old(db.Unfinished()) + db.lockedInside - old(db.lockedInside)
    {
      var result;
      result, order := Attempt(db, ids, p);
      if result.Some? { return result.value, order; }
      retries := retries + 1;
    }
    resp := ErrDatabase;
  }
}
