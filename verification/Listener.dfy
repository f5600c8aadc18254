/**
 The gracefully closing listener as a step system: any number of goroutines call
 `Accept`, close accepted connections, and close the listener, in any
 interleaving. Calls are numbered in the order in which they began.
 */
module Listener {

  /**
   A call of `Accept` and what became of it. A served connection remembers whether
   its underlying connection was closed and whether its `once` has run.
   */
  datatype Call = Counted | Checked | Refusing | Refused | Served(inner: bool, released: bool)

  /** A call of `Close` on the listener. */
  datatype Closer = Marked | Waiting | Returned

  datatype State = State(closed: bool, wg: int, calls: seq<Call>, closers: seq<Closer>)

  datatype Event =
    | BeginAccept
    | CheckClosed(i: nat)
    | InnerAccept(i: nat, success: bool)
    | DeferredDone(i: nat)
    | CloseConnection(i: nat)
    | RunOnce(i: nat)
    | BeginClose
    | CloseInnerListener(j: nat)
    | WaitReturns(j: nat)

  function Next(s: State, e: Event): State {
    match e
    case BeginAccept => s.(wg := s.wg + 1, calls := s.calls + [Counted])
    case CheckClosed(i) =>
      if i < |s.calls| && s.calls[i] == Counted
      then s.(calls := s.calls[i := if s.closed then Refusing else Checked]) else s
    case InnerAccept(i, success) =>
      if i < |s.calls| && s.calls[i] == Checked
      then s.(calls := s.calls[i := if success then Served(true, false) else Refusing]) else s
    case DeferredDone(i) =>
      if i < |s.calls| && s.calls[i] == Refusing then s.(wg := s.wg - 1, calls := s.calls[i := Refused]) else s
    case CloseConnection(i) =>
      if i < |s.calls| && s.calls[i].Served? then s.(calls := s.calls[i := s.calls[i].(inner := false)]) else s
    case RunOnce(i) =>
      if i < |s.calls| && s.calls[i] == Served(false, false)
      then s.(wg := s.wg - 1, calls := s.calls[i := Served(false, true)]) else s
    case BeginClose => s.(closed := true, closers := s.closers + [Marked])
    case CloseInnerListener(j) =>
      if j < |s.closers| && s.closers[j] == Marked then s.(closers := s.closers[j := Waiting]) else s
    case WaitReturns(j) =>
      if j < |s.closers| && s.closers[j] == Waiting && s.wg == 0 then s.(closers := s.closers[j := Returned]) else s
  }

  const LISTENING: State := State(false, 0, [], [])

  function After(s: State, run: seq<Event>): State {
    if run == [] then s else Next(After(s, run[..|run| - 1]), run[|run| - 1])
  }

  /** An accept in progress, or a connection that has not given back its count. */
  predicate Active(c: Call) { c in {Counted, Checked, Refusing} || (c.Served? && !c.released) }

  function CountActive(calls: seq<Call>): nat {
    if calls == [] then 0
    else CountActive(calls[..|calls| - 1]) + if Active(calls[|calls| - 1]) then 1 else 0
  }

  lemma {:induction false} CountUpdate(calls: seq<Call>, i: nat, c: Call)
    requires i < |calls|
    ensures CountActive(calls[i := c])
         == CountActive(calls) - (if Active(calls[i]) then 1 else 0) + (if Active(c) then 1 else 0)
    decreases |calls|
  {
    var n := |calls| - 1;
    if i == n {
      assert calls[i := c][..n] == calls[..n];
    } else {
      assert calls[i := c][..n] == calls[..n][i := c];
      CountUpdate(calls[..n], i, c);
    }
  }

  lemma {:induction false} CountZero(calls: seq<Call>)
    ensures CountActive(calls) == 0 <==> forall i :: 0 <= i < |calls| ==> !Active(calls[i])
    decreases |calls|
  {
    if calls != [] {
      var n := |calls| - 1;
      CountZero(calls[..n]);
      assert forall i :: 0 <= i < n ==> calls[..n][i] == calls[i];
    }
  }

  predicate CloseReturned(s: State) { Returned in s.closers }

  predicate Invariant(s: State) {
    && s.wg == CountActive(s.calls)
    && (s.closers != [] ==> s.closed)
    && (forall i :: 0 <= i < |s.calls| && s.calls[i].Served? && s.calls[i].released ==> !s.calls[i].inner)
    && (CloseReturned(s) ==> forall i :: 0 <= i < |s.calls| ==>
          s.calls[i] != Checked && (s.calls[i].Served? ==> s.calls[i].released))
  }

  lemma CountAppended(calls: seq<Call>, c: Call)
    ensures CountActive(calls + [c]) == CountActive(calls) + if Active(c) then 1 else 0
  {
    assert (calls + [c])[..|calls|] == calls;
  }

  lemma BeginAcceptKeeps(s: State)
    requires Invariant(s)
    ensures Invariant(Next(s, BeginAccept))
  {
    CountAppended(s.calls, Counted);
  }

  /** One call moves on; it keeps its count, or gives it back. */
  lemma CallMoves(s: State, i: nat, c: Call, wg: int)
    requires Invariant(s) && i < |s.calls| && c != Checked
    requires wg == s.wg - (if Active(s.calls[i]) then 1 else 0) + (if Active(c) then 1 else 0)
    requires c.Served? ==> s.calls[i].Served? || (s.calls[i] == Checked && !c.released)
    requires c.Served? && c.released ==> !c.inner
    requires c.Served? && s.calls[i].Served? && s.calls[i].released ==> c.released
    ensures Invariant(s.(wg := wg, calls := s.calls[i := c]))
  {
    CountUpdate(s.calls, i, c);
  }

  lemma CheckClosedKeeps(s: State, i: nat)
    requires Invariant(s)
    ensures Invariant(Next(s, CheckClosed(i)))
  {
    if i < |s.calls| && s.calls[i] == Counted {
      if s.closed {
        CallMoves(s, i, Refusing, s.wg);
      } else {
        CountUpdate(s.calls, i, Checked);
        assert !CloseReturned(s);
      }
    }
  }

  lemma InnerAcceptKeeps(s: State, i: nat, success: bool)
    requires Invariant(s)
    ensures Invariant(Next(s, InnerAccept(i, success)))
  {
    if i < |s.calls| && s.calls[i] == Checked {
      CallMoves(s, i, if success then Served(true, false) else Refusing, s.wg);
    }
  }

  lemma DeferredDoneKeeps(s: State, i: nat)
    requires Invariant(s)
    ensures Invariant(Next(s, DeferredDone(i)))
  {
    if i < |s.calls| && s.calls[i] == Refusing { CallMoves(s, i, Refused, s.wg - 1); }
  }

  lemma CloseConnectionKeeps(s: State, i: nat)
    requires Invariant(s)
    ensures Invariant(Next(s, CloseConnection(i)))
  {
    if i < |s.calls| && s.calls[i].Served? { CallMoves(s, i, s.calls[i].(inner := false), s.wg); }
  }

  lemma RunOnceKeeps(s: State, i: nat)
    requires Invariant(s)
    ensures Invariant(Next(s, RunOnce(i)))
  {
    if i < |s.calls| && s.calls[i] == Served(false, false) { CallMoves(s, i, Served(false, true), s.wg - 1); }
  }

  lemma CloserKeeps(s: State, e: Event)
    requires Invariant(s) && (e.BeginClose? || e.CloseInnerListener?)
    ensures Invariant(Next(s, e))
  {
    assert Returned in Next(s, e).closers ==> Returned in s.closers;
  }

  lemma WaitReturnsKeeps(s: State, j: nat)
    requires Invariant(s)
    ensures Invariant(Next(s, WaitReturns(j)))
  {
    CountZero(s.calls);
  }

  lemma StepKeeps(s: State, e: Event)
    requires Invariant(s)
    ensures Invariant(Next(s, e))
  {
    match e
    case BeginAccept => BeginAcceptKeeps(s);
    case CheckClosed(i) => CheckClosedKeeps(s, i);
    case InnerAccept(i, success) => InnerAcceptKeeps(s, i, success);
    case DeferredDone(i) => DeferredDoneKeeps(s, i);
    case CloseConnection(i) => CloseConnectionKeeps(s, i);
    case RunOnce(i) => RunOnceKeeps(s, i);
    case BeginClose => CloserKeeps(s, e);
    case CloseInnerListener(_) => CloserKeeps(s, e);
    case WaitReturns(j) => WaitReturnsKeeps(s, j);
  }

  lemma {:induction false} RunKeeps(run: seq<Event>)
    ensures Invariant(After(LISTENING, run))
    decreases |run|
  {
    if run != [] {
      RunKeeps(run[..|run| - 1]);
      StepKeeps(After(LISTENING, run[..|run| - 1]), run[|run| - 1]);
    }
  }

  /** In every interleaving the count is that of accepts in progress and open connections. */
  lemma CountOfRun(run: seq<Event>)
    ensures var s := After(LISTENING, run);
            s.wg == CountActive(s.calls) && (s.wg == 0 <==> forall i :: 0 <= i < |s.calls| ==> !Active(s.calls[i]))
  {
    RunKeeps(run);
    CountZero(After(LISTENING, run).calls);
  }

  /** Once a `Close` has returned, every accepted connection has been closed. */
  lemma NothingOpenAfterClose(run: seq<Event>, i: nat)
    ensures var s := After(LISTENING, run);
            CloseReturned(s) && i < |s.calls| && s.calls[i].Served? ==> s.calls[i] == Served(false, true)
  {
    RunKeeps(run);
  }

  /** The connections handed out, by the number of their call. */
  function Handed(s: State): set<nat> { set i: nat | i < |s.calls| && s.calls[i].Served? }

  lemma {:induction false} Concatenated(run: seq<Event>, more: seq<Event>)
    ensures After(LISTENING, run + more) == After(After(LISTENING, run), more)
    decreases |more|
  {
    if more == [] {
      assert run + more == run;
    } else {
      assert (run + more)[..|run + more| - 1] == run + more[..|more| - 1];
      Concatenated(run, more[..|more| - 1]);
    }
  }

  lemma StepHandsOutNothing(s: State, e: Event)
    requires Invariant(s) && CloseReturned(s)
    ensures CloseReturned(Next(s, e)) && Handed(Next(s, e)) == Handed(s)
  {
    var s' := Next(s, e);
    var j :| 0 <= j < |s.closers| && s.closers[j] == Returned;
    assert s'.closers[j] == Returned;
    forall i: nat ensures i in Handed(s') <==> i in Handed(s) { }
  }

  /** Once a `Close` has returned, no `Accept` ever hands out a connection again. */
  lemma {:induction false} NoLateConnection(run: seq<Event>, more: seq<Event>)
    requires CloseReturned(After(LISTENING, run))
    ensures CloseReturned(After(LISTENING, run + more))
    ensures Handed(After(LISTENING, run + more)) == Handed(After(LISTENING, run))
    decreases |more|
  {
    Concatenated(run, more);
    if more != [] {
      var init := more[..|more| - 1];
      NoLateConnection(run, init);
      Concatenated(run, init);
      RunKeeps(run + init);
      StepHandsOutNothing(After(LISTENING, run + init), more[|more| - 1]);
    }
  }

  predicate Released(s: State, i: nat) { i < |s.calls| && s.calls[i] == Served(false, true) }

  /** Given back, its count, for good: closing the connection again, at any time, takes nothing more. */
  lemma {:induction false} ReleasedOnce(run: seq<Event>, more: seq<Event>, i: nat)
    requires Released(After(LISTENING, run), i)
    ensures var s := After(LISTENING, run + more);
            Released(s, i) && Next(s, CloseConnection(i)) == s && Next(s, RunOnce(i)) == s
    decreases |more|
  {
    if more == [] {
      assert run + more == run;
    } else {
      ReleasedOnce(run, more[..|more| - 1], i);
      LastStep(run, more);
      ReleasedStep(After(LISTENING, run + more[..|more| - 1]), more[|more| - 1], i);
    }
    ReleasedIgnores(After(LISTENING, run + more), i);
  }

  lemma ReleasedStep(s: State, e: Event, i: nat)
    requires Released(s, i)
    ensures Released(Next(s, e), i)
  {
  }

  lemma ReleasedIgnores(s: State, i: nat)
    requires Released(s, i)
    ensures Next(s, CloseConnection(i)) == s && Next(s, RunOnce(i)) == s
  {
    assert s.calls[i := s.calls[i]] == s.calls;
  }

  lemma LastStep(run: seq<Event>, more: seq<Event>)
    requires more != []
    ensures After(LISTENING, run + more) == Next(After(LISTENING, run + more[..|more| - 1]), more[|more| - 1])
  {
    assert (run + more)[..|run + more| - 1] == run + more[..|more| - 1];
  }

  /** Calls from the n-th on that never get to accept. */
  predicate NoneAccepts(s: State, n: nat) {
    s.closed && n <= |s.calls| && forall i :: n <= i < |s.calls| ==> s.calls[i] in {Counted, Refusing, Refused}
  }

  lemma NoneAcceptsStep(s: State, e: Event, n: nat)
    requires NoneAccepts(s, n)
    ensures NoneAccepts(Next(s, e), n)
  {
  }

  /** Every `Accept` that begins after a `Close` began is refused; none of them reaches the inner listener. */
  lemma {:induction false} RefusedWhenClosed(run: seq<Event>, more: seq<Event>)
    requires After(LISTENING, run).closed
    ensures NoneAccepts(After(LISTENING, run + more), |After(LISTENING, run).calls|)
    decreases |more|
  {
    if more == [] {
      assert run + more == run;
    } else {
      RefusedWhenClosed(run, more[..|more| - 1]);
      LastStep(run, more);
      NoneAcceptsStep(After(LISTENING, run + more[..|more| - 1]), more[|more| - 1], |After(LISTENING, run).calls|);
    }
  }

  /** A refused call is left with one step of its own, which gives its count back. */
  lemma RefusedGivesBack(s: State, i: nat)
    requires Invariant(s) && i < |s.calls| && s.calls[i] == Refusing
    ensures var s' := Next(s, DeferredDone(i));
            s'.calls[i] == Refused && CountActive(s'.calls) == CountActive(s.calls) - 1 == s'.wg
  {
    CountUpdate(s.calls, i, Refused);
  }

  lemma AfterOne(run: seq<Event>, e: Event)
    ensures After(LISTENING, run + [e]) == Next(After(LISTENING, run), e)
  {
    assert (run + [e])[..|run|] == run;
  }

  lemma AfterTwo(run: seq<Event>, e: Event, f: Event)
    ensures After(LISTENING, run + [e, f]) == Next(Next(After(LISTENING, run), e), f)
  {
    assert run + [e, f] == (run + [e]) + [f];
    AfterOne(run, e);
    AfterOne(run + [e], f);
  }

  /** Closing a connection that has its count gives it back, and changes nothing else. */
  lemma ClosingGivesBack(run: seq<Event>, i: nat)
    requires var calls := After(LISTENING, run).calls; i < |calls| && calls[i].Served? && !calls[i].released
    ensures var s := After(LISTENING, run);
            After(LISTENING, run + [CloseConnection(i), RunOnce(i)])
            == s.(wg := s.wg - 1, calls := s.calls[i := Served(false, true)])
  {
    AfterTwo(run, CloseConnection(i), RunOnce(i));
    ClosedOnce(After(LISTENING, run), i);
  }

  lemma ClosedOnce(s: State, i: nat)
    requires i < |s.calls| && s.calls[i].Served? && !s.calls[i].released
    ensures Next(Next(s, CloseConnection(i)), RunOnce(i))
         == s.(wg := s.wg - 1, calls := s.calls[i := Served(false, true)])
  {
    var closed := s.calls[i := s.calls[i].(inner := false)];
    assert closed[i] == Served(false, false);
    assert closed[i := Served(false, true)] == s.calls[i := Served(false, true)];
  }

  /** While nobody closes the listener an accept can hand out a connection, which counts. */
  lemma OpenListenerAccepts(run: seq<Event>)
    requires !After(LISTENING, run).closed
    ensures var s := After(LISTENING, run); var i := |s.calls|;
            After(LISTENING, run + [BeginAccept] + [CheckClosed(i), InnerAccept(i, true)])
            == s.(wg := s.wg + 1, calls := s.calls + [Served(true, false)])
  {
    var s := After(LISTENING, run);
    var i := |s.calls|;
    AfterOne(run, BeginAccept);
    AfterTwo(run + [BeginAccept], CheckClosed(i), InnerAccept(i, true));
    var begun := s.calls + [Counted];
    assert begun[i := Checked] == s.calls + [Checked];
    assert (s.calls + [Checked])[i := Served(true, false)] == s.calls + [Served(true, false)];
  }

  /** A `Close` returns when no accept is in progress and no connection open, and no sooner. */
  lemma CloseReturnsWhenDrained(run: seq<Event>, j: nat)
    requires j < |After(LISTENING, run).closers| && After(LISTENING, run).closers[j] == Waiting
    ensures var s := After(LISTENING, run);
            After(LISTENING, run + [WaitReturns(j)]).closers[j] == Returned
            <==> forall i :: 0 <= i < |s.calls| ==> !Active(s.calls[i])
  {
    CountOfRun(run);
    AfterOne(run, WaitReturns(j));
  }

  /** A `Close` marks the listener first, and waits behind the end of the inner one. */
  lemma CloseMarks(run: seq<Event>)
    ensures var s := After(LISTENING, run); var j := |s.closers|;
            After(LISTENING, run + [BeginClose, CloseInnerListener(j)])
            == s.(closed := true, closers := s.closers + [Waiting])
  {
    var s := After(LISTENING, run);
    AfterTwo(run, BeginClose, CloseInnerListener(|s.closers|));
    assert (s.closers + [Marked])[|s.closers| := Waiting] == s.closers + [Waiting];
  }
}
