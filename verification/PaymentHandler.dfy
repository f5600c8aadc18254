/**
 What the web handler of a payment does with configuration and metadata: it reads
 both, adds what the request tells, and writes them back as new rows. The
 transaction around it, which also opens the payment, is in `Server`.
 */
module PaymentHandler {
  import opened Wrappers
  import Metadata
  import opened Transactions
  import opened PaymentMetadata
  import opened Ledger
  import Lifecycle

  const ACCEPT_LANGUAGE := "_fAcceptLanguage"
  const BROWSER_LOCALE := "_fBrowserLocale"
  const REMOTE_ADDRESS := "_fRemoteAddress"
  const DEFAULT_LOCALE := "en_US"

  datatype Config = Config(locale: Option<string>, methodId: Option<int>)
  datatype ConfigRow = ConfigRow(payment: int, timestamp: int, config: Config)

  /** What the handler uses of a request; `tag` is the first language tag, if the header parses to any. */
  datatype Request = Request(acceptLanguage: string, tag: Option<string>, remoteAddr: string, methodId: Option<int>)

  // --- what one request does ----------------------------------------------------

  datatype View = View(config: Config, metadata: map<string, string>)

  function WithLocale(m: map<string, string>, req: Request): map<string, string> {
    var m1 := if ACCEPT_LANGUAGE !in m && req.acceptLanguage != "" then m[ACCEPT_LANGUAGE := req.acceptLanguage] else m;
    if req.tag.Some? then m1[BROWSER_LOCALE := req.tag.value] else m1
  }

  function WithAddress(m: map<string, string>, req: Request): map<string, string> {
    if REMOTE_ADDRESS in m then m else m[REMOTE_ADDRESS := req.remoteAddr]
  }

  function LocaleOf(req: Request): string {
    if req.tag.Some? && req.tag.value != "" then req.tag.value else DEFAULT_LOCALE
  }

  function Visit(v: View, req: Request): View {
    var m := if v.config.locale.Some? then v.metadata else WithLocale(v.metadata, req);
    View(Config(if v.config.locale.Some? then v.config.locale else Some(LocaleOf(req)),
                if v.config.methodId.Some? then v.config.methodId else req.methodId),
         WithAddress(m, req))
  }

  /** A request without a locale chosen before: which value goes under which key. */
  lemma FirstVisit(v: View, req: Request)
    requires v.config.locale.None?
    ensures var m := Visit(v, req).metadata;
            && ("_fAcceptLanguage" in v.metadata ==> "_fAcceptLanguage" in m
                                                     && m["_fAcceptLanguage"] == v.metadata["_fAcceptLanguage"])
            && ("_fAcceptLanguage" !in v.metadata ==>
                  if req.acceptLanguage == "" then "_fAcceptLanguage" !in m
                  else "_fAcceptLanguage" in m && m["_fAcceptLanguage"] == req.acceptLanguage)
            && (req.tag.Some? ==> "_fBrowserLocale" in m && m["_fBrowserLocale"] == req.tag.value)
    ensures Visit(v, req).config.locale
         == Some(if req.tag == None || req.tag == Some("") then "en_US" else req.tag.value)
  {
  }

  /** Any request: the address that was first, and the method that was chosen. */
  lemma EveryVisit(v: View, req: Request)
    ensures var m := Visit(v, req).metadata;
            && "_fRemoteAddress" in m
            && m["_fRemoteAddress"] == (if "_fRemoteAddress" in v.metadata then v.metadata["_fRemoteAddress"]
                                        else req.remoteAddr)
            && (v.config.locale.Some? ==> m.Keys == v.metadata.Keys + {"_fRemoteAddress"}
                                          && forall key :: key in v.metadata ==> m[key] == v.metadata[key])
    ensures v.config.methodId.None? ==> Visit(v, req).config.methodId == req.methodId
  {
  }

  function Visits(v: View, reqs: seq<Request>): View {
    if reqs == [] then v else Visit(Visits(v, reqs[..|reqs| - 1]), reqs[|reqs| - 1])
  }

  const RESERVED: set<string> := {ACCEPT_LANGUAGE, BROWSER_LOCALE, REMOTE_ADDRESS}

  /** No run of requests touches the keys of the project, nor a chosen locale or method. */
  lemma {:induction false} RunKeepsKeys(v: View, reqs: seq<Request>, key: string)
    requires key !in RESERVED
    ensures var after := Visits(v, reqs);
            && (key in after.metadata <==> key in v.metadata)
            && (key in v.metadata ==> after.metadata[key] == v.metadata[key])
            && (v.config.locale.Some? ==> after.config.locale == v.config.locale)
            && (v.config.methodId.Some? ==> after.config.methodId == v.config.methodId)
  {
    if reqs != [] {
      RunKeepsKeys(v, reqs[..|reqs| - 1], key);
    }
  }

  /** The reserved keys are those of the first request: later ones change no metadata. */
  lemma {:induction false} FirstRequestDecides(v: View, reqs: seq<Request>)
    requires reqs != []
    ensures var first, after := Visit(v, reqs[0]), Visits(v, reqs);
            && after.metadata == first.metadata && after.config.locale == first.config.locale
            && after.config.locale.Some? && REMOTE_ADDRESS in after.metadata
  {
    var n := |reqs| - 1;
    if n == 0 {
      assert reqs[..n] == [];
    } else {
      FirstRequestDecides(v, reqs[..n]);
    }
  }

  // --- the database ---------------------------------------------------------------

  type MetadataRow = Metadata.Row<string>

  /** The tables of the payment database, ledger and provider tables for one payment. */
  datatype Tables = Tables(
    configs: seq<ConfigRow>,
    metadata: seq<MetadataRow>,
    ledger: seq<PaymentTransaction>,
    paypal: seq<Lifecycle.Row>,
    fritzpay: Option<string>)

  type PaymentDB = Database<Tables>

  /** The newest configuration of a payment: the row with the greatest timestamp. */
  function LatestConfig(rows: seq<ConfigRow>, payment: int): Config {
    if rows == [] then Config(None, None)
    else if rows[|rows| - 1].payment == payment then rows[|rows| - 1].config
    else LatestConfig(rows[..|rows| - 1], payment)
  }

  ghost predicate Rising(rows: seq<ConfigRow>, now: int) {
    && (forall i, j :: 0 <= i < j < |rows| ==> rows[i].timestamp < rows[j].timestamp)
    && (forall i :: 0 <= i < |rows| ==> rows[i].timestamp < now)
  }

  ghost predicate Before(rows: seq<MetadataRow>, now: int) {
    Metadata.Ordered(rows) && forall i :: 0 <= i < |rows| ==> rows[i].timestamp < now
  }

  method ReadConfig(rows: seq<ConfigRow>, payment: int, ghost now: int) returns (config: Config)
    requires Rising(rows, now)
    ensures config == LatestConfig(rows, payment)
  {
    config := Config(None, None);
    var youngest: Option<int> := None;
    var i := 0;
    while i < |rows|
      invariant 0 <= i <= |rows| && config == LatestConfig(rows[..i], payment)
      invariant youngest.Some? ==> exists j :: 0 <= j < i && rows[j].timestamp == youngest.value
    {
      assert rows[..i + 1][..i] == rows[..i];
      if rows[i].payment == payment && (youngest.None? || youngest.value < rows[i].timestamp) {
        config, youngest := rows[i].config, Some(rows[i].timestamp);
      }
      i := i + 1;
    }
    assert rows[..i] == rows;
  }

  /** What a handler reads of a payment. */
  function ViewOf(tables: Tables, payment: int): View {
    View(LatestConfig(tables.configs, payment), Snapshot(tables.metadata, payment))
  }

  /** All rows are older than now. */
  ghost predicate Older(tables: Tables, now: int) {
    Before(tables.metadata, now) && Rising(tables.configs, now)
  }

  class Payment {
    const id: int
    var config: Config
    var metadata: map<string, string>

    constructor (id: int, config: Config, metadata: map<string, string>)
      ensures this.id == id && this.config == config && this.metadata == metadata
    {
      this.id, this.config, this.metadata := id, config, metadata;
    }

    method DetermineLocale(req: Request) returns (configChanged: bool, metadataChanged: bool)
      modifies this
      ensures config.methodId == old(config.methodId)
      ensures if old(config.locale.Some?)
              then config == old(config) && metadata == old(metadata) && !configChanged && !metadataChanged
              else config.locale == Some(LocaleOf(req)) && metadata == WithLocale(old(metadata), req) && configChanged
      ensures !metadataChanged ==> metadata == old(metadata)
    {
      if config.locale.Some? { return false, false; }
      metadataChanged := false;
      if ACCEPT_LANGUAGE !in metadata && req.acceptLanguage != "" {
        metadata := metadata[ACCEPT_LANGUAGE := req.acceptLanguage];
        metadataChanged := true;
      }
      var locale := "";
      if req.tag.Some? {
        locale := req.tag.value;
        metadata := metadata[BROWSER_LOCALE := locale];
        metadataChanged := true;
      }
      if locale == "" {
        locale := DEFAULT_LOCALE;
      }
      config := config.(locale := Some(locale));
      configChanged := true;
    }

    method DetermineEnv(req: Request) returns (metadataChanged: bool)
      modifies this`metadata
      ensures metadata == WithAddress(old(metadata), req)
      ensures !metadataChanged ==> metadata == old(metadata)
    {
      metadataChanged := REMOTE_ADDRESS !in metadata;
      if metadataChanged {
        metadata := metadata[REMOTE_ADDRESS := req.remoteAddr];
      }
    }

    /** All that the request tells, and whether configuration and metadata have to be written. */
    method Apply(req: Request) returns (configChanged: bool, metadataChanged: bool)
      modifies this
      ensures View(config, metadata) == Visit(old(View(config, metadata)), req)
      ensures !configChanged ==> config == old(config)
      ensures !metadataChanged ==> metadata == old(metadata)
    {
      var environment;
      configChanged, metadataChanged := DetermineLocale(req);
      environment := DetermineEnv(req);
      metadataChanged := metadataChanged || environment;
      if config.methodId.None? && req.methodId.Some? {
        config := config.(methodId := req.methodId);
        configChanged := true;
      }
    }
  }

  lemma ConfigAppended(rows: seq<ConfigRow>, row: ConfigRow, other: int)
    ensures LatestConfig(rows + [row], other) == if row.payment == other then row.config else LatestConfig(rows, other)
  {
    assert (rows + [row])[..|rows|] == rows;
  }

  /** The new row is the payment's configuration from now on, and no other payment's. */
  lemma ConfigWritten(rows: seq<ConfigRow>, row: ConfigRow)
    requires Rising(rows, row.timestamp)
    ensures Rising(rows + [row], row.timestamp + 1)
    ensures forall other ::
              LatestConfig(rows + [row], other)
              == if other == row.payment then row.config else LatestConfig(rows, other)
  {
    forall other
      ensures LatestConfig(rows + [row], other)
              == if other == row.payment then row.config else LatestConfig(rows, other)
    {
      ConfigAppended(rows, row, other);
    }
  }

  /** `SetPaymentConfig` inside a transaction. */
  method SetConfig(db: PaymentDB, p: Payment, now: int) returns (o: Outcome)
    requires Rising(db.working.configs, now)
    modifies db`steps, db`failures, db`lockedInside, db`working
    ensures db.steps == old(db.steps) + 1 && o == db.outcome(old(db.steps))
    ensures db.lockedInside == old(db.lockedInside) + if o.Locked? then 1 else 0
    ensures o.Done? ==> db.working == old(db.working).(configs := db.working.configs)
                        && Rising(db.working.configs, now + 1)
    ensures o.Done? ==> forall other ::
              LatestConfig(db.working.configs, other)
              == if other == p.id then p.config else LatestConfig(old(db.working).configs, other)
  {
    var row := ConfigRow(p.id, now, p.config);
    ConfigWritten(db.working.configs, row);
    o := db.Exec(db.working.(configs := db.working.configs + [row]));
  }

  /** The rows that an insert of a map leads to. */
  method Inserted(rows: seq<MetadataRow>, payment: int, m: map<string, string>, now: int)
    returns (longer: seq<MetadataRow>)
    requires Before(rows, now)
    ensures Before(longer, now + 1)
    ensures forall other ::
              Snapshot(longer, other) == if other == payment && m != map[] then m else Snapshot(rows, other)
  {
    var table := new Metadata.Table(rows);
    table.Insert(payment, m, now);
    longer := table.rows;
    ghost var added := longer[|rows|..];
    assert longer == rows + added;
    forall other
      ensures Snapshot(longer, other) == if other == payment && m != map[] then m else Snapshot(rows, other)
    {
      SnapshotAfterWrite(rows, added, Metadata.Write(payment, m, now), other);
    }
  }

  /** `SetPaymentMetadata` inside a transaction. */
  method SetMetadata(db: PaymentDB, p: Payment, now: int) returns (o: Outcome)
    requires Before(db.working.metadata, now) && p.metadata != map[]
    modifies db`steps, db`failures, db`lockedInside, db`working
    ensures db.steps == old(db.steps) + 1 && o == db.outcome(old(db.steps))
    ensures db.lockedInside == old(db.lockedInside) + if o.Locked? then 1 else 0
    ensures o.Done? ==> db.working == old(db.working).(metadata := db.working.metadata)
                        && Before(db.working.metadata, now + 1)
    ensures o.Done? ==> forall other ::
              Snapshot(db.working.metadata, other)
              == if other == p.id then p.metadata else Snapshot(old(db.working).metadata, other)
  {
    var rows := Inserted(db.working.metadata, p.id, p.metadata, now);
    o := db.Exec(db.working.(metadata := rows));
  }

  /** The views of all payments after the visit of one. */
  ghost predicate Visited(before: Tables, after: Tables, id: int, req: Request) {
    forall other ::
      ViewOf(after, other) == if other == id then Visit(ViewOf(before, id), req) else ViewOf(before, other)
  }

  /** The part of the handler's transaction that reads and writes configuration and metadata. */
  method SaveVisit(db: PaymentDB, id: int, req: Request, now: int) returns (o: Outcome)
    requires Older(db.working, now)
    modifies db`steps, db`failures, db`lockedInside, db`working
    ensures db.steps > old(db.steps)
    ensures db.lockedInside == old(db.lockedInside) + if o.Locked? then 1 else 0
    ensures o.Done? ==>
              && Older(db.working, now + 1) && Visited(old(db.working), db.working, id, req)
              && db.working.ledger == old(db.working).ledger && db.working.paypal == old(db.working).paypal
              && db.working.fritzpay == old(db.working).fritzpay
    ensures o.Locked? ==> db.Faulty(old(db.steps), db.steps)
    ensures !o.Done? ==>
              db.Faulty(old(db.steps), db.steps) || Visit(ViewOf(old(db.working), id), req).config.methodId.None?
  {
    ghost var before := db.working;
    var read := db.Update(db.working);
    if !read { return Outcome.Failed; }
    var config := ReadConfig(db.working.configs, id, now);
    var meta := ReadMetadata(db.working.metadata, id);
    var p := new Payment(id, config, meta);
    var configChanged, metadataChanged := p.Apply(req);
    var usable := db.Update(db.working);
    if !usable || p.config.methodId.None? { return Outcome.Failed; }
    if configChanged {
      o := SetConfig(db, p, now);
      if !o.Done? { return; }
    }
    if metadataChanged {
      o := SetMetadata(db, p, now);
      if !o.Done? { return; }
    }
    o := Done;
  }
}
