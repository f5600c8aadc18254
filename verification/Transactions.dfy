/**
 Serialisable transactions on the tables of a database. Every step may be
 refused; error 1213 rolls the whole transaction back. Transactions that were
 begun and neither committed nor rolled back by the program are counted.
 */
module Transactions {

  datatype Outcome = Done | Locked | Failed

  class Database<T> {
    /** What other transactions see, and what the one at work sees. */
    var committed: T
    var working: T
    var steps: nat
    var begins: nat
    var finished: nat
    /** Transactions lost to error 1213 at a statement, or at their commit. */
    var lockedInside: nat
    var lockedAtCommit: nat
    /** Everything else that went wrong. */
    var failures: nat
    const outcome: nat -> Outcome

    constructor (tables: T, outcome: nat -> Outcome)
      ensures committed == tables && Unfinished() == 0 && steps == 0
      ensures lockedInside == lockedAtCommit == failures == 0
    {
      committed, working, this.outcome := tables, tables, outcome;
      steps, begins, finished, lockedInside, lockedAtCommit, failures := 0, 0, 0, 0, 0, 0;
    }

    /** Transactions that the program has left open. */
    function Unfinished(): int
      reads this
    {
      begins - finished
    }

    /** Some step from one to another was refused. */
    ghost predicate Faulty(from: nat, to: nat) { exists k :: from <= k < to && !outcome(k).Done? }

    method Try() returns (o: Outcome)
      modifies this`steps
      ensures steps == old(steps) + 1 && o == outcome(old(steps))
    {
      o := outcome(steps);
      steps := steps + 1;
    }

    /** A step outside of any transaction. */
    method Check() returns (ok: bool)
      modifies this`steps, this`failures
      ensures steps == old(steps) + 1 && (ok <==> outcome(old(steps)).Done?)
      ensures failures == old(failures) + if ok then 0 else 1
    {
      var o := Try();
      ok := o.Done?;
      if !ok { failures := failures + 1; }
    }

    method Begin() returns (ok: bool)
      modifies this`steps, this`failures, this`begins, this`working
      ensures steps == old(steps) + 1 && (ok <==> outcome(old(steps)).Done?)
      ensures failures == old(failures) + if ok then 0 else 1
      ensures begins == old(begins) + if ok then 1 else 0
      ensures working == committed
    {
      ok := Check();
      working := committed;
      if ok { begins := begins + 1; }
    }

    /** A statement after whose lock error the caller begins anew. */
    method Exec(tables: T) returns (o: Outcome)
      modifies this`steps, this`failures, this`lockedInside, this`working
      ensures steps == old(steps) + 1 && o == outcome(old(steps))
      ensures failures == old(failures) + if o.Failed? then 1 else 0
      ensures lockedInside == old(lockedInside) + if o.Locked? then 1 else 0
      ensures o.Done? ==> working == tables
    {
      o := Try();
      match o {
        case Done => working := tables;
        case Locked => working, lockedInside := committed, lockedInside + 1;
        case Failed => failures := failures + 1;
      }
    }

    /** A statement after any of whose errors the caller gives up. */
    method Update(tables: T) returns (ok: bool)
      modifies this`steps, this`failures, this`working
      ensures steps == old(steps) + 1 && (ok <==> outcome(old(steps)).Done?)
      ensures failures == old(failures) + if ok then 0 else 1
      ensures working == if ok then tables else old(working)
    {
      ok := Check();
      if ok { working := tables; }
    }

    method Commit() returns (o: Outcome)
      modifies this`steps, this`failures, this`lockedAtCommit, this`committed, this`finished
      ensures steps == old(steps) + 1 && o == outcome(old(steps))
      ensures failures == old(failures) + if o.Failed? then 1 else 0
      ensures lockedAtCommit == old(lockedAtCommit) + if o.Locked? then 1 else 0
      ensures committed == if o.Done? then working else old(committed)
      ensures finished == old(finished) + 1
    {
      o := Try();
      match o {
        case Done => committed := working;
        case Locked => lockedAtCommit := lockedAtCommit + 1;
        case Failed => failures := failures + 1;
      }
      finished := finished + 1;
    }

    method Rollback() returns (ok: bool)
      modifies this`steps, this`working, this`finished
      ensures steps == old(steps) + 1 && (ok <==> outcome(old(steps)).Done?)
      ensures finished == old(finished) + 1 && working == committed
    {
      var o := Try();
      ok := o.Done?;
      working, finished := committed, finished + 1;
    }

    /** A statement that is a transaction of its own. */
    method Autocommit(tables: T) returns (ok: bool)
      modifies this`steps, this`failures, this`committed
      ensures steps == old(steps) + 1 && (ok <==> outcome(old(steps)).Done?)
      ensures failures == old(failures) + if ok then 0 else 1
      ensures committed == if ok then tables else old(committed)
    {
      ok := Check();
      if ok { committed := tables; }
    }
  }
}
