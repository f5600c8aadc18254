/**
 A payment's metadata is read as the rows with the payment's greatest timestamp:
 the last snapshot that had any entry.
 */
module PaymentMetadata {
  import opened Wrappers
  import opened Metadata

  function Younger(a: Option<int>, b: Option<int>): Option<int> {
    match (a, b)
    case (Some(x), Some(y)) => if x < y then b else a
    case (None, _) => b
    case (_, None) => a
  }

  /** `SELECT MAX(timestamp)`. */
  function MaxTime(rows: seq<Row<string>>, payment: int): Option<int> {
    if rows == [] then None
    else
      var last := rows[|rows| - 1];
      Younger(MaxTime(rows[..|rows| - 1], payment), if last.primary == payment then Some(last.timestamp) else None)
  }

  function At(rows: seq<Row<string>>, payment: int, time: int): map<string, string> {
    if rows == [] then map[]
    else
      var last := rows[|rows| - 1];
      var m := At(rows[..|rows| - 1], payment, time);
      if last.primary == payment && last.timestamp == time then m[last.name := last.entry] else m
  }

  function Snapshot(rows: seq<Row<string>>, payment: int): map<string, string> {
    match MaxTime(rows, payment)
    case None => map[]
    case Some(time) => At(rows, payment, time)
  }

  lemma {:induction false} MaxTimeAppended(rows: seq<Row<string>>, added: seq<Row<string>>, payment: int)
    ensures MaxTime(rows + added, payment) == Younger(MaxTime(rows, payment), MaxTime(added, payment))
  {
    if added == [] {
      assert rows + added == rows;
    } else {
      var n := |added| - 1;
      MaxTimeAppended(rows, added[..n], payment);
      assert (rows + added)[..|rows + added| - 1] == rows + added[..n];
    }
  }

  lemma {:induction false} AtAppended(rows: seq<Row<string>>, added: seq<Row<string>>, payment: int, time: int)
    ensures At(rows + added, payment, time) == At(rows, payment, time) + At(added, payment, time)
  {
    if added == [] {
      assert rows + added == rows;
    } else {
      var n := |added| - 1;
      AtAppended(rows, added[..n], payment, time);
      assert (rows + added)[..|rows + added| - 1] == rows + added[..n];
      UpdateLast(At(rows, payment, time), At(added[..n], payment, time), added[n].name, added[n].entry);
    }
  }

  lemma {:induction false} OlderTime(rows: seq<Row<string>>, payment: int, now: int)
    requires forall i :: 0 <= i < |rows| ==> rows[i].timestamp < now
    ensures var time := MaxTime(rows, payment); time.Some? ==> time.value < now
    ensures At(rows, payment, now) == map[]
  {
    if rows != [] {
      OlderTime(rows[..|rows| - 1], payment, now);
    }
  }

  /** All rows of one insert have its time and its payment. */
  lemma {:induction false} OneTime(added: seq<Row<string>>, primary: int, now: int, payment: int, time: int)
    requires forall i :: 0 <= i < |added| ==> added[i].primary == primary && added[i].timestamp == now
    ensures MaxTime(added, payment) == if primary == payment && added != [] then Some(now) else None
    ensures At(added, payment, time) == if time == now then Overridden(added, payment) else map[]
  {
    if added != [] {
      OneTime(added[..|added| - 1], primary, now, payment, time);
    }
  }

  lemma {:induction false} OtherPrimary(added: seq<Row<string>>, primary: int, payment: int)
    requires primary != payment && forall i :: 0 <= i < |added| ==> added[i].primary == primary
    ensures Overridden(added, payment) == map[]
  {
    if added != [] {
      OtherPrimary(added[..|added| - 1], primary, payment);
    }
  }

  /** An insert replaces the snapshot, unless there was nothing to insert. */
  lemma SnapshotAfterWrite(rows: seq<Row<string>>, added: seq<Row<string>>, write: Write<string>, payment: int)
    requires Writes(added, write.primary, write.now, write.values)
    requires forall i :: 0 <= i < |rows| ==> rows[i].timestamp < write.now
    ensures Snapshot(rows + added, payment)
         == if write.primary == payment && write.values != map[] then write.values else Snapshot(rows, payment)
  {
    var before := MaxTime(rows, payment);
    MaxTimeAppended(rows, added, payment);
    OlderTime(rows, payment, write.now);
    WritesRead(added, write.primary, write.now, write.values);
    OneTime(added, write.primary, write.now, payment, write.now);
    if write.primary == payment && added != [] {
      AtAppended(rows, added, payment, write.now);
      assert added[0].name in write.values;
    } else {
      if write.primary != payment {
        OtherPrimary(added, write.primary, payment);
      }
      if before.Some? {
        AtAppended(rows, added, payment, before.value);
        OneTime(added, write.primary, write.now, payment, before.value);
      }
    }
  }

  /** The last map with entries among those inserted for a payment. */
  function LastNonEmpty(history: seq<Write<string>>, payment: int): map<string, string> {
    if history == [] then map[]
    else
      var last := history[|history| - 1];
      if last.primary == payment && last.values != map[] then last.values
      else LastNonEmpty(history[..|history| - 1], payment)
  }

  lemma {:induction false} SnapshotReadsHistory(rows: seq<Row<string>>, history: seq<Write<string>>, payment: int)
    requires Reached(rows, history)
    ensures Snapshot(rows, payment) == LastNonEmpty(history, payment)
    decreases |history|
  {
    if history != [] {
      var before, added := LastWrite(rows, history);
      SnapshotReadsHistory(before, history[..|history| - 1], payment);
      SnapshotAfterWrite(before, added, history[|history| - 1], payment);
    }
  }

  /** `PaymentMetadataTx`: the subquery, then the scan of its rows. */
  method ReadMetadata(rows: seq<Row<string>>, payment: int) returns (meta: map<string, string>)
    ensures meta == Snapshot(rows, payment)
  {
    var time: Option<int> := None;
    var i := 0;
    while i < |rows|
      invariant 0 <= i <= |rows| && time == MaxTime(rows[..i], payment)
    {
      assert rows[..i + 1][..i] == rows[..i];
      if rows[i].primary == payment && (time.None? || time.value < rows[i].timestamp) {
        time := Some(rows[i].timestamp);
      }
      i := i + 1;
    }
    assert rows[..i] == rows;
    meta := map[];
    if time.None? { return; }
    i := 0;
    while i < |rows|
      invariant 0 <= i <= |rows| && meta == At(rows[..i], payment, time.value)
    {
      assert rows[..i + 1][..i] == rows[..i];
      if rows[i].primary == payment && rows[i].timestamp == time.value {
        meta := meta[rows[i].name := rows[i].entry];
      }
      i := i + 1;
    }
    assert rows[..i] == rows;
  }
}
