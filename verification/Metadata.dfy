/**
 Metadata is kept in append-only tables and read by greatest timestamp: for a
 project by name, for a payment as the last written snapshot. All rows of one
 insert carry the time of the insert; times grow from one insert to the next.
 */
module Metadata {
  import opened Sequences

  /** An entry is a value with its author in project metadata, a plain string for payments. */
  datatype Row<V> = Row(primary: int, name: string, timestamp: int, entry: V)

  type Values<V> = map<string, V>

  /** Timestamps never decrease, and a primary's name has one row at a time. */
  ghost predicate Ordered<V>(rows: seq<Row<V>>) {
    forall i, j :: 0 <= i < j < |rows| ==>
      && rows[i].timestamp <= rows[j].timestamp
      && (rows[i].primary == rows[j].primary && rows[i].name == rows[j].name ==> rows[i].timestamp < rows[j].timestamp)
  }

  /** The rows of one insert, in the order the map was visited, while some names are still to do. */
  predicate Writing<V(==)>(rows: seq<Row<V>>, primary: int, now: int, m: Values<V>, todo: set<string>) {
    && (forall i :: 0 <= i < |rows| ==>
          && rows[i].primary == primary && rows[i].timestamp == now && rows[i].name in m && rows[i].name !in todo
          && rows[i].entry == m[rows[i].name])
    && (forall i, j :: 0 <= i < j < |rows| ==> rows[i].name != rows[j].name)
    && (forall name :: name in m && name !in todo ==> exists i :: 0 <= i < |rows| && rows[i].name == name)
  }

  predicate Writes<V(==)>(rows: seq<Row<V>>, primary: int, now: int, m: Values<V>) {
    Writing(rows, primary, now, m, {})
  }

  lemma WritesOneMore<V>(rows: seq<Row<V>>, primary: int, now: int, m: Values<V>, todo: set<string>, name: string)
    requires Writing(rows, primary, now, m, todo) && name in m && name in todo
    ensures Writing(rows + [Row(primary, name, now, m[name])], primary, now, m, todo - {name})
  {
    var longer := rows + [Row(primary, name, now, m[name])];
    forall other | other in m && other !in todo - {name}
      ensures exists i :: 0 <= i < |longer| && longer[i].name == other
    {
      if other == name {
        assert longer[|rows|].name == name;
      } else {
        var i :| 0 <= i < |rows| && rows[i].name == other;
        assert longer[i].name == other;
      }
    }
  }

  /** A table row is selected when no row of the same primary and name is younger. */
  predicate Newest<V>(rows: seq<Row<V>>, i: nat)
    requires i < |rows|
  {
    forall j :: 0 <= j < |rows| && rows[j].primary == rows[i].primary && rows[j].name == rows[i].name ==>
      rows[j].timestamp <= rows[i].timestamp
  }

  /** What a reader should see: every row overrides the rows before it. */
  function Overridden<V>(rows: seq<Row<V>>, primary: int): Values<V> {
    if rows == [] then map[]
    else
      var row := rows[|rows| - 1];
      var m := Overridden(rows[..|rows| - 1], primary);
      if row.primary == primary then m[row.name := row.entry] else m
  }

  ghost predicate Named<V>(rows: seq<Row<V>>, primary: int, name: string) {
    exists i :: 0 <= i < |rows| && rows[i].primary == primary && rows[i].name == name
  }

  lemma {:induction false} OverriddenNames<V>(rows: seq<Row<V>>, primary: int, name: string)
    ensures name in Overridden(rows, primary) <==> Named(rows, primary, name)
  {
    if rows != [] {
      var last := |rows| - 1;
      OverriddenNames(rows[..last], primary, name);
      if i :| 0 <= i < last && rows[i].primary == primary && rows[i].name == name {
        assert rows[..last][i].name == name;
      }
    }
  }

  /** A selected row is one that nothing overrides. */
  lemma {:induction false} NewestWins<V>(rows: seq<Row<V>>, i: nat)
    requires Ordered(rows) && i < |rows| && Newest(rows, i)
    ensures var row, m := rows[i], Overridden(rows, rows[i].primary);
            row.name in m && m[row.name] == row.entry
  {
    var last := |rows| - 1;
    if i < last {
      assert Newest(rows[..last], i);
      NewestWins(rows[..last], i);
    }
  }

  lemma UpdateLast<K, V>(a: map<K, V>, b: map<K, V>, k: K, v: V)
    ensures (a + b)[k := v] == a + b[k := v]
  {
  }

  /** Inserting a map overrides what was read before. */
  lemma {:induction false} InsertOverrides<V>(rows: seq<Row<V>>, added: seq<Row<V>>, primary: int, other: int)
    requires forall i :: 0 <= i < |added| ==> added[i].primary == primary
    ensures Overridden(rows + added, other)
         == Overridden(rows, other) + if other == primary then Overridden(added, primary) else map[]
  {
    if added == [] {
      assert rows + added == rows;
    } else {
      var n := |added| - 1;
      InsertOverrides(rows, added[..n], primary, other);
      assert (rows + added)[..|rows + added| - 1] == rows + added[..n];
      UpdateLast(Overridden(rows, primary), Overridden(added[..n], primary), added[n].name, added[n].entry);
    }
  }

  lemma {:induction false} InsertReadsBack<V>(rows: seq<Row<V>>, primary: int, name: string)
    requires forall i :: 0 <= i < |rows| ==> rows[i].primary == primary
    requires forall i, j :: 0 <= i < j < |rows| ==> rows[i].name != rows[j].name
    ensures name in Overridden(rows, primary) <==> exists i :: 0 <= i < |rows| && rows[i].name == name
    ensures forall i :: 0 <= i < |rows| && rows[i].name == name ==> Overridden(rows, primary)[name] == rows[i].entry
  {
    if rows != [] {
      var n := |rows| - 1;
      InsertReadsBack(rows[..n], primary, name);
      if i :| 0 <= i < n && rows[i].name == name {
        assert rows[..n][i].name == name;
      }
      if rows[n].name == name {
        assert forall i :: 0 <= i < n ==> rows[i].name != name;
      }
    }
  }

  lemma WritesRead<V>(rows: seq<Row<V>>, primary: int, now: int, m: Values<V>)
    requires Writes(rows, primary, now, m)
    ensures Overridden(rows, primary) == m
  {
    var read := Overridden(rows, primary);
    forall name ensures name in read <==> name in m
                ensures name in m ==> name in read && read[name] == m[name]
    {
      InsertReadsBack(rows, primary, name);
    }
  }

  lemma Inserted<V>(rows: seq<Row<V>>, added: seq<Row<V>>, primary: int, now: int, m: Values<V>)
    requires Ordered(rows) && forall i :: 0 <= i < |rows| ==> rows[i].timestamp < now
    requires Writes(added, primary, now, m)
    ensures Ordered(rows + added) && forall i :: 0 <= i < |rows + added| ==> (rows + added)[i].timestamp <= now
    ensures forall other :: Overridden(rows + added, other)
                          == Overridden(rows, other) + if other == primary then m else map[]
  {
    WritesRead(added, primary, now, m);
    forall other
      ensures Overridden(rows + added, other) == Overridden(rows, other) + if other == primary then m else map[]
    {
      InsertOverrides(rows, added, primary, other);
    }
  }

  /** The table behind a `MetadataModeler`. */
  class Table<V(!new)> {
    var rows: seq<Row<V>>

    constructor (rows: seq<Row<V>>)
      ensures this.rows == rows
    {
      this.rows := rows;
    }

    /** `InsertMetadataTx`: entries in any order, all at one time. */
    method Insert(primary: int, m: Values<V>, now: int)
      requires Ordered(rows) && forall i :: 0 <= i < |rows| ==> rows[i].timestamp < now
      modifies this
      ensures forall history :: Reached(old(rows), history) ==> Reached(rows, history + [Write(primary, m, now)])
      ensures Ordered(rows) && forall i :: 0 <= i < |rows| ==> rows[i].timestamp <= now
      ensures old(rows) <= rows && Writes(rows[|old(rows)|..], primary, now, m)
      ensures forall other :: Overridden(rows, other)
                            == Overridden(old(rows), other) + if other == primary then m else map[]
    {
      var todo := m.Keys;
      ghost var before, added: seq<Row<V>> := rows, [];
      while todo != {}
        invariant todo <= m.Keys
        invariant rows == before + added && Writing(added, primary, now, m, todo)
        decreases |todo|
      {
        var name :| name in todo;
        WritesOneMore(added, primary, now, m, todo, name);
        rows := rows + [Row(primary, name, now, m[name])];
        added := added + [Row(primary, name, now, m[name])];
        todo := todo - {name};
      }
      Inserted(before, added, primary, now, m);
      forall history | Reached(before, history) ensures Reached(rows, history + [Write(primary, m, now)]) {
        ReachedOneMore(before, added, history, Write(primary, m, now));
      }
    }

    /** `MetadataByPrimaryTx`: the rows the query selects, collected in a map. */
    method ByPrimary(primary: int) returns (m: Values<V>)
      requires Ordered(rows)
      ensures m == Overridden(rows, primary)
    {
      m := map[];
      var i := 0;
      while i < |rows|
        invariant 0 <= i <= |rows|
        invariant forall name :: name in m ==>
                    name in Overridden(rows, primary) && m[name] == Overridden(rows, primary)[name]
        invariant forall j :: 0 <= j < i && rows[j].primary == primary && Newest(rows, j) ==> rows[j].name in m
      {
        if rows[i].primary == primary && Newest(rows, i) {
          NewestWins(rows, i);
          m := m[rows[i].name := rows[i].entry];
        }
        i := i + 1;
      }
      forall name | name in Overridden(rows, primary) ensures name in m {
        OverriddenNames(rows, primary, name);
        var j :| 0 <= j < |rows| && rows[j].primary == primary && rows[j].name == name;
        var k := NewestOf(rows, j, |rows|);
        assert rows[k].name == name;
      }
    }
  }

  /** Some row at or behind i is the newest of its primary and name. */
  lemma {:induction false} NewestOf<V>(rows: seq<Row<V>>, i: nat, n: nat) returns (k: nat)
    requires Ordered(rows) && i < |rows|
    requires i < n <= |rows|
    requires forall j :: n <= j < |rows| ==> !(rows[j].primary == rows[i].primary && rows[j].name == rows[i].name)
    ensures k < |rows| && rows[k].primary == rows[i].primary && rows[k].name == rows[i].name && Newest(rows, k)
    decreases n
  {
    if rows[n - 1].primary == rows[i].primary && rows[n - 1].name == rows[i].name {
      k := n - 1;
    } else {
      k := NewestOf(rows, i, n - 1);
    }
  }

  datatype Write<V> = Write(primary: int, values: Values<V>, now: int)

  /** The table after a run of inserts at growing times. */
  ghost predicate Reached<V(!new)>(rows: seq<Row<V>>, history: seq<Write<V>>)
    decreases |history|
  {
    if history == [] then rows == []
    else
      var n, last := |history| - 1, history[|history| - 1];
      exists k :: 0 <= k <= |rows|
        && Reached(rows[..k], history[..n])
        && Writes(rows[k..], last.primary, last.now, last.values)
        && forall i :: 0 <= i < k ==> rows[i].timestamp < last.now
  }

  lemma ReachedOneMore<V(!new)>(rows: seq<Row<V>>, added: seq<Row<V>>, history: seq<Write<V>>, last: Write<V>)
    requires Reached(rows, history) && Writes(added, last.primary, last.now, last.values)
    requires forall i :: 0 <= i < |rows| ==> rows[i].timestamp < last.now
    ensures Reached(rows + added, history + [last])
  {
    var k, longer := |rows|, history + [last];
    assert (rows + added)[..k] == rows && (rows + added)[k..] == added;
    assert longer[..|longer| - 1] == history;
  }

  lemma LastWrite<V(!new)>(rows: seq<Row<V>>, history: seq<Write<V>>) returns (before: seq<Row<V>>, added: seq<Row<V>>)
    requires history != [] && Reached(rows, history)
    ensures var n := |history| - 1;
            && rows == before + added && Reached(before, history[..n])
            && Writes(added, history[n].primary, history[n].now, history[n].values)
            && forall i :: 0 <= i < |before| ==> before[i].timestamp < history[n].now
  {
    var n, last := |history| - 1, history[|history| - 1];
    var k :| 0 <= k <= |rows|
      && Reached(rows[..k], history[..n])
      && Writes(rows[k..], last.primary, last.now, last.values)
      && forall i :: 0 <= i < k ==> rows[i].timestamp < last.now;
    before, added := rows[..k], rows[k..];
    Rejoined(rows, k);
  }

  /** The maps inserted for a primary, each overriding those before it. */
  function Override<V>(history: seq<Write<V>>, primary: int): Values<V> {
    if history == [] then map[]
    else
      var last := history[|history| - 1];
      Override(history[..|history| - 1], primary) + if last.primary == primary then last.values else map[]
  }

  lemma WriteReads<V>(rows: seq<Row<V>>, added: seq<Row<V>>, write: Write<V>, primary: int)
    requires Ordered(rows) && Writes(added, write.primary, write.now, write.values)
    requires forall i :: 0 <= i < |rows| ==> rows[i].timestamp < write.now
    ensures Ordered(rows + added)
    ensures Overridden(rows + added, primary)
         == Overridden(rows, primary) + if write.primary == primary then write.values else map[]
  {
    Inserted(rows, added, write.primary, write.now, write.values);
  }

  /** Whatever was inserted, the table reads as the override of all inserted maps. */
  lemma {:induction false} TableReadsHistory<V(!new)>(rows: seq<Row<V>>, history: seq<Write<V>>, primary: int)
    requires Reached(rows, history)
    ensures Ordered(rows)
    ensures Overridden(rows, primary) == Override(history, primary)
    decreases |history|
  {
    if history != [] {
      var before, added := LastWrite(rows, history);
      TableReadsHistory(before, history[..|history| - 1], primary);
      WriteReads(before, added, history[|history| - 1], primary);
    }
  }
}
