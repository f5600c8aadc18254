/**
 One call of the payment service's intent procedure as a step system: the
 calling goroutine, the pre-intent workers with their error channel, the
 goroutine that waits for the post-intent workers, and the goroutine that runs
 the commit workers. Steps of different goroutines interleave freely; a step
 whose guard fails leaves the state as it is. Workers are numbered in the order
 of their registration.
 */
module Intent {
  import opened Wrappers

  datatype Kind = Pre | Post | Commit

  datatype Outcome = DeadlineExceeded | ContextClosed | Refused(err: string) | Granted(commitFunc: bool)

  /** Where the caller is. Everything from Launching to Leaving holds the read lock. */
  datatype Caller = Start | Launching | Selecting | Posting | Committing | Leaving | Returned(outcome: Outcome)

  datatype Waiter = NoWaiter | Adding | Waiting | AllPosted

  /** The post-intent workers called so far, and the group waiting for their results. */
  datatype PostGroup = PostGroup(called: nat, total: nat, waiter: Waiter, pending: seq<bool>, wg: int)

  datatype Committer = Absent | Listening | Spawning | Collecting | Finished | TimedOut

  /** A commit worker: running, blocked on the result channel, or received. */
  datatype Worker = Running | Sending | Received

  /** The goroutines behind the returned commit function. */
  datatype CommitGroup = CommitGroup(
    committer: Committer, closed: bool, expired: bool, lock: bool,
    snapshot: nat, workers: seq<Worker>, runs: seq<nat>, wg: int)

  datatype State = State(
    pre: nat, post: nat, commits: nat, // registered workers
    caller: Caller, contextDone: bool, readLock: bool, acquired: nat, released: nat,
    preLaunched: nat, errors: Option<string>, doneClosed: nat,
    posts: PostGroup, group: CommitGroup)

  datatype PostEvent = AddPost | AwaitPosts | PostResult(post: nat) | PostWaitReturns

  datatype CommitEvent =
    | Expire | SeeCommit | SeeExpiry | Spawn | StartCollecting | Run(worker: nat) | Collect(worker: nat) | WaitReturns

  datatype Event =
    | Register(kind: Kind)
    | CloseContext
    | Enter(late: bool) | LaunchPre | TakeContext | TakeError | TakeTimeout | CallPost | SetUpCommit | Leave
    | SendError(err: string)
    | InPosts(p: PostEvent)
    | CallCommit
    | InCommits(c: CommitEvent)

  // --- the steps -------------------------------------------------------------

  function PostStep(g: PostGroup, e: PostEvent): PostGroup {
    match e
    case AddPost =>
      if g.waiter == Adding && |g.pending| < g.total then g.(wg := g.wg + 1, pending := g.pending + [true]) else g
    case AwaitPosts => if g.waiter == Adding && |g.pending| == g.total then g.(waiter := Waiting) else g
    case PostResult(i) =>
      if i < |g.pending| && g.pending[i] then g.(wg := g.wg - 1, pending := g.pending[i := false]) else g
    case PostWaitReturns => if g.waiter == Waiting && g.wg == 0 then g.(waiter := AllPosted) else g
  }

  predicate CommitEnabled(g: CommitGroup, e: CommitEvent) {
    match e
    case Expire => g.committer == Listening && !g.expired
    case SeeCommit => g.committer == Listening && g.closed
    case SeeExpiry => g.committer == Listening && g.expired
    case Spawn => g.committer == Spawning && |g.workers| < g.snapshot
    case StartCollecting => g.committer == Spawning && |g.workers| == g.snapshot
    case Run(k) => k < |g.workers| && k < |g.runs| && g.workers[k] == Running
    case Collect(k) => g.committer == Collecting && k < |g.workers| && g.workers[k] == Sending
    case WaitReturns => g.committer == Collecting && g.wg == 0
  }

  /** `registered` is the number of commit workers at the time of the step. */
  function CommitStep(g: CommitGroup, registered: nat, e: CommitEvent): CommitGroup {
    if !CommitEnabled(g, e) then g
    else match e
      case Expire => g.(expired := true)
      case SeeCommit => g.(committer := Spawning, lock := true, snapshot := registered)
      case SeeExpiry => g.(committer := TimedOut)
      case Spawn => g.(wg := g.wg + 1, workers := g.workers + [Running], runs := g.runs + [0])
      case StartCollecting => g.(lock := false, committer := Collecting)
      case Run(k) => g.(runs := g.runs[k := g.runs[k] + 1], workers := g.workers[k := Sending])
      case Collect(k) => g.(wg := g.wg - 1, workers := g.workers[k := Received])
      case WaitReturns => g.(committer := Finished)
  }

  function Unlocked(s: State, outcome: Outcome): State {
    s.(readLock := false, released := s.released + 1, caller := Returned(outcome))
  }

  function Next(s: State, e: Event): State {
    match e
    case Register(kind) =>
      if s.readLock || s.group.lock then s
      else (match kind
            case Pre => s.(pre := s.pre + 1)
            case Post => s.(post := s.post + 1)
            case Commit => s.(commits := s.commits + 1))
    case CloseContext => s.(contextDone := true)
    case Enter(late) =>
      if s.caller != Start then s
      else if late then s.(caller := Returned(DeadlineExceeded))
      else s.(readLock := true, acquired := s.acquired + 1, caller := if s.pre > 0 then Launching else Posting)
    case LaunchPre =>
      if s.caller != Launching then s
      else s.(preLaunched := s.preLaunched + 1, caller := if s.preLaunched + 1 == s.pre then Selecting else Launching)
    case SendError(err) =>
      if s.preLaunched > 0 && s.errors.None? then s.(errors := Some(err)) else s
    case TakeContext =>
      if s.caller == Selecting && s.contextDone
      then Unlocked(s.(doneClosed := s.doneClosed + 1), ContextClosed) else s
    case TakeError =>
      if s.caller == Selecting && s.errors.Some?
      then Unlocked(s.(doneClosed := s.doneClosed + 1, errors := None), Refused(s.errors.value)) else s
    case TakeTimeout =>
      if s.caller == Selecting then s.(doneClosed := s.doneClosed + 1, caller := Posting) else s
    case CallPost =>
      if s.caller != Posting then s
      else if s.posts.called < s.post then s.(posts := s.posts.(called := s.posts.called + 1, total := s.post))
      else s.(posts := s.posts.(waiter := if s.post > 0 then Adding else NoWaiter), caller := Committing)
    case SetUpCommit =>
      if s.caller != Committing then s
      else s.(group := s.group.(committer := if s.commits > 0 then Listening else Absent), caller := Leaving)
    case Leave => if s.caller == Leaving then Unlocked(s, Granted(s.commits > 0)) else s
    case InPosts(p) => s.(posts := PostStep(s.posts, p))
    case CallCommit =>
      if s.caller == Returned(Granted(true)) && !s.group.closed then s.(group := s.group.(closed := true)) else s
    case InCommits(c) => s.(group := CommitStep(s.group, s.commits, c))
  }

  function Initial(pre: nat, post: nat, commits: nat): State {
    State(pre, post, commits, Start, false, false, 0, 0, 0, None, 0,
          PostGroup(0, 0, NoWaiter, [], 0), CommitGroup(Absent, false, false, false, 0, [], [], 0))
  }

  function After(s: State, run: seq<Event>): State {
    if run == [] then s else Next(After(s, run[..|run| - 1]), run[|run| - 1])
  }

  // --- counting what is awaited ----------------------------------------------

  function CountPending(l: seq<bool>): nat {
    if l == [] then 0 else CountPending(l[..|l| - 1]) + if l[|l| - 1] then 1 else 0
  }

  function Outstanding(w: seq<Worker>): nat {
    if w == [] then 0 else Outstanding(w[..|w| - 1]) + if w[|w| - 1] == Received then 0 else 1
  }

  lemma {:induction false} PendingUpdate(l: seq<bool>, i: nat)
    requires i < |l| && l[i]
    ensures CountPending(l[i := false]) == CountPending(l) - 1
    decreases |l|
  {
    var n := |l| - 1;
    if i == n {
      assert l[i := false][..n] == l[..n];
    } else {
      assert l[i := false][..n] == l[..n][i := false];
      PendingUpdate(l[..n], i);
    }
  }

  lemma {:induction false} OutstandingUpdate(w: seq<Worker>, k: nat, v: Worker)
    requires k < |w|
    ensures Outstanding(w[k := v])
         == Outstanding(w) - (if w[k] == Received then 0 else 1) + (if v == Received then 0 else 1)
    decreases |w|
  {
    var n := |w| - 1;
    if k == n {
      assert w[k := v][..n] == w[..n];
    } else {
      assert w[k := v][..n] == w[..n][k := v];
      OutstandingUpdate(w[..n], k, v);
    }
  }

  /** The wait group is at zero exactly when every result has arrived. */
  lemma {:induction false} OutstandingZero(w: seq<Worker>)
    ensures Outstanding(w) == 0 <==> forall k :: 0 <= k < |w| ==> w[k] == Received
    decreases |w|
  {
    if w != [] {
      var n := |w| - 1;
      OutstandingZero(w[..n]);
      assert forall k :: 0 <= k < n ==> w[..n][k] == w[k];
    }
  }

  lemma {:induction false} PendingZero(l: seq<bool>)
    ensures CountPending(l) == 0 <==> forall i :: 0 <= i < |l| ==> !l[i]
    decreases |l|
  {
    if l != [] {
      var n := |l| - 1;
      PendingZero(l[..n]);
      assert forall i :: 0 <= i < n ==> l[..n][i] == l[i];
    }
  }

  // --- the invariant ---------------------------------------------------------

  predicate PostsCounted(g: PostGroup) {
    && g.wg == CountPending(g.pending)
    && |g.pending| <= g.total
    && (g.waiter == NoWaiter ==> g.pending == [])
    && (g.waiter == Waiting || g.waiter == AllPosted ==> |g.pending| == g.total)
    && (g.waiter == AllPosted ==> g.wg == 0)
  }

  predicate CommitsCounted(g: CommitGroup) {
    && g.wg == Outstanding(g.workers)
    && |g.runs| == |g.workers| <= g.snapshot
    && (forall k :: 0 <= k < |g.runs| ==> g.runs[k] == if g.workers[k] == Running then 0 else 1)
    && (g.lock <==> g.committer == Spawning)
    && (g.committer in {Absent, Listening, TimedOut} ==> g.workers == [])
    && (g.committer in {Collecting, Finished} ==> |g.workers| == g.snapshot)
    && (g.committer == Finished ==> g.wg == 0)
    && (g.committer in {Spawning, Collecting, Finished} ==> g.closed)
    && (g.committer == TimedOut ==> g.expired)
  }

  predicate Failed(s: State) { s.caller.Returned? && !s.caller.outcome.Granted? }

  predicate Succeeded(s: State) { s.caller.Returned? && s.caller.outcome.Granted? }

  predicate LockHeld(s: State) {
    && s.readLock == (s.caller in {Launching, Selecting, Posting, Committing, Leaving})
    && s.acquired == (if s.caller == Start || s.caller == Returned(DeadlineExceeded) then 0 else 1)
    && s.released == (if s.readLock then 0 else s.acquired)
  }

  /** Before the post phase nothing has been called, set up, or closed twice. */
  predicate EarlyPhases(s: State) {
    && s.doneClosed <= 1
    && (s.caller == Start ==> s.doneClosed == 0 && s.preLaunched == 0)
    && (s.caller in {Launching, Selecting} ==> s.doneClosed == 0)
    && (s.caller == Launching ==> s.preLaunched < s.pre)
    && (s.caller == Selecting ==> s.preLaunched > 0)
    && (s.caller in {Start, Launching, Selecting} || Failed(s) ==> s.posts.called == 0)
    && (s.caller in {Start, Launching, Selecting, Posting} || Failed(s) ==> s.posts.waiter == NoWaiter)
    && (s.caller in {Start, Launching, Selecting, Posting, Committing} || Failed(s) ==> s.group.committer == Absent)
  }

  predicate LatePhases(s: State) {
    && (s.posts.called == 0 <==> s.posts.total == 0)
    && (s.caller == Posting ==> s.posts.called <= s.post && (s.posts.called > 0 ==> s.posts.total == s.post))
    && (s.caller in {Committing, Leaving} || Succeeded(s) ==>
          s.posts.called == s.posts.total && (s.posts.total > 0 <==> s.posts.waiter != NoWaiter))
    && (s.caller == Leaving ==> (s.group.committer != Absent <==> s.commits > 0))
    && (Succeeded(s) ==> (s.group.committer != Absent <==> s.caller.outcome.commitFunc))
    && (s.group.closed ==> s.caller == Returned(Granted(true)))
  }

  predicate Invariant(s: State) {
    LockHeld(s) && EarlyPhases(s) && LatePhases(s) && PostsCounted(s.posts) && CommitsCounted(s.group)
  }

  lemma PendingAppended(l: seq<bool>)
    ensures CountPending(l + [true]) == CountPending(l) + 1
  {
    assert (l + [true])[..|l|] == l;
  }

  lemma PostStepKeeps(g: PostGroup, e: PostEvent)
    requires PostsCounted(g)
    ensures PostsCounted(PostStep(g, e))
  {
    if e.AddPost? {
      PendingAppended(g.pending);
    } else if e.PostResult? && e.post < |g.pending| && g.pending[e.post] {
      PendingUpdate(g.pending, e.post);
    }
  }

  lemma SpawnKeeps(g: CommitGroup)
    requires CommitsCounted(g) && g.committer == Spawning && |g.workers| < g.snapshot
    ensures CommitsCounted(g.(wg := g.wg + 1, workers := g.workers + [Running], runs := g.runs + [0]))
  {
    assert (g.workers + [Running])[..|g.workers|] == g.workers;
  }

  lemma RunStepKeeps(g: CommitGroup, k: nat)
    requires CommitsCounted(g) && k < |g.workers| && g.workers[k] == Running
    ensures CommitsCounted(g.(runs := g.runs[k := g.runs[k] + 1], workers := g.workers[k := Sending]))
  {
    OutstandingUpdate(g.workers, k, Sending);
    OutstandingZero(g.workers);
  }

  lemma CollectKeeps(g: CommitGroup, k: nat)
    requires CommitsCounted(g) && g.committer == Collecting && k < |g.workers| && g.workers[k] == Sending
    ensures CommitsCounted(g.(wg := g.wg - 1, workers := g.workers[k := Received]))
  {
    OutstandingUpdate(g.workers, k, Received);
  }

  lemma CommitStepKeeps(g: CommitGroup, registered: nat, e: CommitEvent)
    requires CommitsCounted(g)
    ensures CommitsCounted(CommitStep(g, registered, e))
  {
    if CommitEnabled(g, e) {
      match e
      case Spawn => SpawnKeeps(g);
      case Run(k) => RunStepKeeps(g, k);
      case Collect(k) => CollectKeeps(g, k);
      case _ =>
    }
  }

  lemma CallerKeeps(s: State, e: Event)
    requires Invariant(s)
    requires e.Enter? || e.LaunchPre? || e.TakeContext? || e.TakeError? || e.TakeTimeout? || e.CallPost?
             || e.SetUpCommit? || e.Leave?
    ensures Invariant(Next(s, e))
  {
  }

  lemma PostsKeep(s: State, e: PostEvent)
    requires Invariant(s)
    ensures Invariant(Next(s, InPosts(e)))
  {
    PostStepKeeps(s.posts, e);
  }

  lemma CommitsKeep(s: State, e: CommitEvent)
    requires Invariant(s)
    ensures Invariant(Next(s, InCommits(e)))
  {
    CommitStepKeeps(s.group, s.commits, e);
  }

  lemma OutsideKeeps(s: State, e: Event)
    requires Invariant(s)
    requires e.Register? || e.CloseContext? || e.SendError? || e.CallCommit?
    ensures Invariant(Next(s, e))
  {
  }

  lemma StepKeeps(s: State, e: Event)
    requires Invariant(s)
    ensures Invariant(Next(s, e))
  {
    match e
    case InPosts(p) => PostsKeep(s, p);
    case InCommits(c) => CommitsKeep(s, c);
    case Register(_) => OutsideKeeps(s, e);
    case CloseContext => OutsideKeeps(s, e);
    case SendError(_) => OutsideKeeps(s, e);
    case CallCommit => OutsideKeeps(s, e);
    case _ => CallerKeeps(s, e);
  }

  lemma {:induction false} RunKeeps(s: State, run: seq<Event>)
    requires Invariant(s)
    ensures Invariant(After(s, run))
    decreases |run|
  {
    if run != [] {
      RunKeeps(s, run[..|run| - 1]);
      StepKeeps(After(s, run[..|run| - 1]), run[|run| - 1]);
    }
  }

  // --- what holds in every run -----------------------------------------------

  /**
   In every interleaving: the read lock taken once is given back once by the time
   the call returns, `done` is closed at most once, and after an error no post
   or commit worker has run or ever will.
   */
  lemma CallDiscipline(pre: nat, post: nat, commits: nat, run: seq<Event>)
    ensures var s := After(Initial(pre, post, commits), run);
            && s.acquired <= 1 && s.released <= s.acquired
            && (s.caller.Returned? ==> s.released == s.acquired && !s.readLock)
            && s.doneClosed <= 1
            && (Failed(s) ==> s.posts.called == 0 && s.group.runs == [])
            && (Succeeded(s) ==> s.posts.called == s.posts.total)
  {
    RunKeeps(Initial(pre, post, commits), run);
  }

  /** Every worker of the snapshot ran exactly once and delivered its result. */
  predicate AllRanOnce(g: CommitGroup) {
    && |g.runs| == |g.workers| == g.snapshot
    && forall k :: 0 <= k < g.snapshot ==> g.runs[k] == 1 && g.workers[k] == Received
  }

  /**
   Neither wait group is ever negative, and a goroutine gets past its wait only
   after every worker was added and every result was received.
   */
  lemma WaitGroups(pre: nat, post: nat, commits: nat, run: seq<Event>)
    ensures var s := After(Initial(pre, post, commits), run);
            && s.posts.wg >= 0 && s.group.wg >= 0
            && (s.posts.waiter == AllPosted ==>
                  |s.posts.pending| == s.posts.total && forall i :: 0 <= i < s.posts.total ==> !s.posts.pending[i])
            && (s.group.committer == Collecting && s.group.wg == 0 ==> AllRanOnce(s.group))
            && (s.group.committer == Finished ==> AllRanOnce(s.group))
  {
    var s := After(Initial(pre, post, commits), run);
    RunKeeps(Initial(pre, post, commits), run);
    PendingZero(s.posts.pending);
    OutstandingZero(s.group.workers);
  }

  /** No commit worker runs twice, none without a commit, none after the timer won. */
  lemma AtMostOnce(pre: nat, post: nat, commits: nat, run: seq<Event>, k: nat)
    ensures var g := After(Initial(pre, post, commits), run).group;
            k < |g.runs| ==> g.runs[k] <= 1 && g.closed && k < g.snapshot && g.committer != TimedOut
  {
    RunKeeps(Initial(pre, post, commits), run);
  }

  /** Work left for the commit goroutines. */
  function Remaining(g: CommitGroup, registered: nat): nat
    requires CommitsCounted(g)
  {
    (match g.committer
     case Listening => 5 + 3 * registered - (if g.expired then 1 else 0)
     case Spawning => 3 + 3 * (g.snapshot - |g.workers|)
     case Collecting => 1
     case _ => 0) + Effort(g.workers)
  }

  function Effort(w: seq<Worker>): nat {
    if w == [] then 0
    else Effort(w[..|w| - 1]) + match w[|w| - 1] case Running => 2 case Sending => 1 case Received => 0
  }

  lemma {:induction false} EffortUpdate(w: seq<Worker>, k: nat)
    requires k < |w|
    ensures w[k] == Running ==> Effort(w[k := Sending]) == Effort(w) - 1
    ensures w[k] == Sending ==> Effort(w[k := Received]) == Effort(w) - 1
    decreases |w|
  {
    var n := |w| - 1;
    if k == n {
      assert w[k := Sending][..n] == w[..n] && w[k := Received][..n] == w[..n];
    } else {
      assert w[k := Sending][..n] == w[..n][k := Sending] && w[k := Received][..n] == w[..n][k := Received];
      EffortUpdate(w[..n], k);
    }
  }

  /** Every step of the commit goroutines brings their end nearer. */
  lemma CommitProgress(g: CommitGroup, registered: nat, e: CommitEvent)
    requires CommitsCounted(g) && CommitEnabled(g, e)
    ensures CommitsCounted(CommitStep(g, registered, e))
    ensures Remaining(CommitStep(g, registered, e), registered) < Remaining(g, registered)
  {
    CommitStepKeeps(g, registered, e);
    match e
    case Spawn => assert (g.workers + [Running])[..|g.workers|] == g.workers;
    case Run(k) => EffortUpdate(g.workers, k);
    case Collect(k) => EffortUpdate(g.workers, k);
    case _ =>
  }

  /** Apart from the timer, the commit goroutines can do nothing more. */
  ghost predicate Quiet(g: CommitGroup) { forall e: CommitEvent :: !e.Expire? ==> !CommitEnabled(g, e) }

  /** The two ways in which a committed call ends: the commit was seen, or the timer was and no worker ran. */
  predicate Concluded(g: CommitGroup) {
    || (g.committer == Finished && AllRanOnce(g))
    || (g.committer == TimedOut && g.expired && g.runs == [])
  }

  lemma QuietCompletes(g: CommitGroup)
    requires CommitsCounted(g) && g.committer != Absent && g.closed && Quiet(g)
    ensures Concluded(g)
  {
    assert !CommitEnabled(g, SeeCommit) && !CommitEnabled(g, Spawn);
    assert !CommitEnabled(g, StartCollecting) && !CommitEnabled(g, WaitReturns);
    OutstandingZero(g.workers);
    if g.committer == Collecting {
      forall k | 0 <= k < |g.workers| ensures g.workers[k] == Received {
        assert !CommitEnabled(g, Run(k)) && !CommitEnabled(g, Collect(k));
      }
    }
  }

  // --- runs in pieces ----------------------------------------------------------

  lemma {:induction false} AfterParts(s: State, run: seq<Event>, more: seq<Event>)
    ensures After(s, run + more) == After(After(s, run), more)
    decreases |more|
  {
    if more == [] {
      assert run + more == run;
    } else {
      var n := |more| - 1;
      assert (run + more)[..|run + more| - 1] == run + more[..n];
      AfterParts(s, run, more[..n]);
    }
  }

  lemma AfterOne(s: State, run: seq<Event>, e: Event)
    ensures After(s, run + [e]) == Next(After(s, run), e)
  {
    assert (run + [e])[..|run|] == run;
  }

  // --- the commit --------------------------------------------------------------

  lemma CommitSeen(s: State)
    requires Invariant(s)
    ensures var g := Next(s, CallCommit).group;
            && (g.closed <==> s.caller == Returned(Granted(true)))
            && Next(s, CallCommit) == s.(group := s.group.(closed := g.closed))
  {
  }

  /** A granted call can be committed: its commit function reaches the waiting goroutine. */
  lemma CommitReaches(pre: nat, post: nat, commits: nat, run: seq<Event>)
    ensures var s := After(Initial(pre, post, commits), run);
            var s' := After(Initial(pre, post, commits), run + [CallCommit]);
            && (s'.group.closed <==> s.caller == Returned(Granted(true)))
            && s' == s.(group := s.group.(closed := s'.group.closed))
  {
    RunKeeps(Initial(pre, post, commits), run);
    AfterOne(Initial(pre, post, commits), run, CallCommit);
    CommitSeen(After(Initial(pre, post, commits), run));
  }

  lemma {:induction false} ClosedStays(s: State, run: seq<Event>)
    requires s.group.closed
    ensures After(s, run).group.closed
    decreases |run|
  {
    if run != [] {
      ClosedStays(s, run[..|run| - 1]);
      ClosedStep(After(s, run[..|run| - 1]), run[|run| - 1]);
    }
  }

  lemma ClosedStep(s: State, e: Event)
    requires s.group.closed
    ensures Next(s, e).group.closed
  {
  }

  /** The commit function was called in the run, after the call had returned it. */
  ghost predicate CommitCalled(start: State, run: seq<Event>) {
    exists before, behind :: CalledBetween(start, run, before, behind)
  }

  ghost predicate CalledBetween(start: State, run: seq<Event>, before: seq<Event>, behind: seq<Event>) {
    run == before + [CallCommit] + behind && After(start, before).caller == Returned(Granted(true))
  }

  lemma CommitCloses(pre: nat, post: nat, commits: nat, run: seq<Event>)
    requires CommitCalled(Initial(pre, post, commits), run)
    ensures After(Initial(pre, post, commits), run).group.closed
  {
    var start := Initial(pre, post, commits);
    var before, behind :| CalledBetween(start, run, before, behind);
    CommitReaches(pre, post, commits, before);
    ClosedBehind(start, before + [CallCommit], behind);
  }

  lemma ClosedBehind(start: State, upTo: seq<Event>, more: seq<Event>)
    requires After(start, upTo).group.closed
    ensures After(start, upTo + more).group.closed
  {
    AfterParts(start, upTo, more);
    ClosedStays(After(start, upTo), more);
  }

  /** A commit goroutine is there for one worker at least, and runs all it found. */
  predicate WorkersKnown(s: State) {
    && (s.group.committer != Absent ==> s.commits > 0)
    && (s.group.committer in {Spawning, Collecting, Finished} ==> 0 < s.group.snapshot <= s.commits)
  }

  lemma {:induction false} RunKnowsWorkers(s: State, run: seq<Event>)
    requires Invariant(s) && WorkersKnown(s)
    ensures WorkersKnown(After(s, run))
    decreases |run|
  {
    if run != [] {
      RunKnowsWorkers(s, run[..|run| - 1]);
      RunKeeps(s, run[..|run| - 1]);
      StepKnowsWorkers(After(s, run[..|run| - 1]), run[|run| - 1]);
    }
  }

  lemma StepKnowsWorkers(s: State, e: Event)
    requires Invariant(s) && WorkersKnown(s)
    ensures WorkersKnown(Next(s, e))
  {
  }

  /**
   When the commit function was called and the commit goroutines can do nothing
   more, every commit worker registered when the commit was seen, one at least,
   ran exactly once. If the timer fired as well, none may have run; otherwise
   that cannot be.
   */
  lemma CommittedCompletes(pre: nat, post: nat, commits: nat, run: seq<Event>)
    requires CommitCalled(Initial(pre, post, commits), run)
    ensures var g := After(Initial(pre, post, commits), run).group;
            && (Quiet(g) ==> Concluded(g))
            && (Quiet(g) && !g.expired ==> g.committer == Finished && AllRanOnce(g) && g.snapshot > 0)
  {
    var g := After(Initial(pre, post, commits), run).group;
    CommitCloses(pre, post, commits, run);
    RunKeeps(Initial(pre, post, commits), run);
    RunKnowsWorkers(Initial(pre, post, commits), run);
    if Quiet(g) { QuietCompletes(g); }
  }

  /** A step other than the timer's, while the commit goroutines have not finished. */
  lemma PendingStep(g: CommitGroup) returns (e: CommitEvent)
    requires CommitsCounted(g) && g.closed && g.committer in {Listening, Spawning, Collecting}
    ensures !e.Expire? && !e.SeeExpiry? && CommitEnabled(g, e)
  {
    OutstandingZero(g.workers);
    if g.committer == Listening {
      e := SeeCommit;
    } else if g.committer == Spawning {
      e := if |g.workers| < g.snapshot then Spawn else StartCollecting;
    } else if exists k :: 0 <= k < |g.workers| && g.workers[k] != Received {
      var k :| 0 <= k < |g.workers| && g.workers[k] != Received;
      e := if g.workers[k] == Running then Run(k) else Collect(k);
    } else {
      e := WaitReturns;
    }
  }

  /** The steps that finish a commit: all workers registered when it is seen. */
  lemma FinishCommit(s: State) returns (more: seq<Event>)
    requires Invariant(s) && s.group.closed && s.group.committer in {Listening, Spawning, Collecting, Finished}
    ensures var g := After(s, more).group;
            && g.committer == Finished && AllRanOnce(g)
            && g.snapshot == if s.group.committer == Listening then s.commits else s.group.snapshot
    decreases Remaining(s.group, s.commits)
  {
    if s.group.committer == Finished {
      more := [];
      OutstandingZero(s.group.workers);
    } else {
      var e := PendingStep(s.group);
      var s' := Next(s, InCommits(e));
      StepKeeps(s, InCommits(e));
      CommitProgress(s.group, s.commits, e);
      var rest := FinishCommit(s');
      AfterFirst(s, InCommits(e), rest);
      more := [InCommits(e)] + rest;
    }
  }

  /**
   Unless the timer fired, a granted call that is committed can always be brought
   to the end: every commit worker registered at the commit runs exactly once.
   */
  lemma CommitCanComplete(pre: nat, post: nat, commits: nat, run: seq<Event>) returns (more: seq<Event>)
    requires var s := After(Initial(pre, post, commits), run); s.caller == Returned(Granted(true)) && !s.group.expired
    ensures var s := After(Initial(pre, post, commits), run);
            var g := After(Initial(pre, post, commits), run + [CallCommit] + more).group;
            && g.committer == Finished && AllRanOnce(g) && g.snapshot > 0
            && (!s.group.closed ==> g.snapshot == s.commits)
  {
    var start := Initial(pre, post, commits);
    RunKeeps(start, run);
    RunKeeps(start, run + [CallCommit]);
    RunKnowsWorkers(start, run);
    CommitReaches(pre, post, commits, run);
    more := FinishCommit(After(start, run + [CallCommit]));
    AfterParts(start, run + [CallCommit], more);
    RunKnowsWorkers(start, run + [CallCommit] + more);
  }

  lemma Expires(s: State)
    requires s.group.committer == Listening
    ensures Next(Next(s, InCommits(Expire)), InCommits(SeeExpiry))
         == s.(group := s.group.(committer := TimedOut, expired := true))
  {
  }

  lemma AfterTwo(s: State, run: seq<Event>, e: Event, f: Event)
    ensures After(s, run + [e, f]) == Next(Next(After(s, run), e), f)
  {
    assert run + [e, f] == (run + [e]) + [f];
    AfterOne(s, run, e);
    AfterOne(s, run + [e], f);
  }

  /** When the timer fires first the goroutine ends, and no commit worker ever runs. */
  lemma ExpiryEnds(pre: nat, post: nat, commits: nat, run: seq<Event>, more: seq<Event>)
    requires After(Initial(pre, post, commits), run).group.committer == Listening
    ensures var g := After(Initial(pre, post, commits), run + [InCommits(Expire), InCommits(SeeExpiry)] + more).group;
            g.committer == TimedOut && g.runs == []
  {
    var start, upTo := Initial(pre, post, commits), run + [InCommits(Expire), InCommits(SeeExpiry)];
    AfterTwo(start, run, InCommits(Expire), InCommits(SeeExpiry));
    Expires(After(start, run));
    TimedOutBehind(start, upTo, more);
  }

  lemma TimedOutBehind(start: State, upTo: seq<Event>, more: seq<Event>)
    requires Invariant(start) && After(start, upTo).group.committer == TimedOut
    ensures After(start, upTo + more).group.committer == TimedOut && After(start, upTo + more).group.runs == []
  {
    RunKeeps(start, upTo);
    AfterParts(start, upTo, more);
    TimedOutStays(After(start, upTo), more);
    RunKeeps(start, upTo + more);
  }

  lemma {:induction false} TimedOutStays(s: State, run: seq<Event>)
    requires Invariant(s) && s.group.committer == TimedOut
    ensures After(s, run).group.committer == TimedOut
    decreases |run|
  {
    if run != [] {
      TimedOutStays(s, run[..|run| - 1]);
      RunKeeps(s, run[..|run| - 1]);
      TimedOutStep(After(s, run[..|run| - 1]), run[|run| - 1]);
    }
  }

  lemma TimedOutStep(s: State, e: Event)
    requires Invariant(s) && s.group.committer == TimedOut
    ensures Next(s, e).group.committer == TimedOut
  {
  }

  /** Until it returns, the caller always has a step to take. */
  lemma CallerNeverStuck(s: State)
    requires Invariant(s) && !s.caller.Returned?
    ensures exists e :: e in {Enter(false), LaunchPre, TakeTimeout, CallPost, SetUpCommit, Leave} && Next(s, e) != s
  {
    var e := match s.caller
      case Start => Enter(false)
      case Launching => LaunchPre
      case Selecting => TakeTimeout
      case Posting => CallPost
      case Committing => SetUpCommit
      case _ => Leave;
    assert e in {Enter(false), LaunchPre, TakeTimeout, CallPost, SetUpCommit, Leave} && Next(s, e) != s;
  }

  // --- the call -------------------------------------------------------------------

  /**
   Where a call is that found the workers counted in s0: it launches all of
   those pre-intent workers and calls all of those post-intent workers, and
   returns a commit function exactly when there are commit workers.
   */
  predicate Entered(s0: State, s: State) {
    && s.caller != Start && s.acquired == 1
    && (s.readLock ==> s.pre == s0.pre && s.post == s0.post && s.commits == s0.commits)
    && (s.caller == Launching ==> s.preLaunched < s0.pre)
    && (s.caller == Selecting ==> s0.pre > 0 && s.doneClosed == 0)
    && (s.caller != Launching ==> s.preLaunched == s0.pre)
    && (s.caller in {Posting, Committing, Leaving} || Succeeded(s) ==> s.doneClosed == if s0.pre > 0 then 1 else 0)
    && (Failed(s) ==> s0.pre > 0 && s.doneClosed == 1)
    && (s.caller in {Committing, Leaving} || Succeeded(s) ==> s.posts.called == s.posts.total == s0.post)
    && (s.caller == Leaving || Succeeded(s) ==> (s.group.committer != Absent <==> s0.commits > 0))
    && (Succeeded(s) ==> s.caller == Returned(Granted(s0.commits > 0)))
  }

  lemma EnteredStep(s0: State, s: State, e: Event)
    requires Invariant(s) && Entered(s0, s)
    ensures Entered(s0, Next(s, e))
  {
  }

  lemma {:induction false} EnteredRun(s0: State, s: State, run: seq<Event>)
    requires Invariant(s) && Entered(s0, s)
    ensures Entered(s0, After(s, run))
    decreases |run|
  {
    if run != [] {
      RunKeeps(s, run[..|run| - 1]);
      EnteredRun(s0, s, run[..|run| - 1]);
      EnteredStep(s0, After(s, run[..|run| - 1]), run[|run| - 1]);
    }
  }

  /**
   A call works on the workers that were registered when it took the lock,
   whatever is registered later: when it returns granted, each of those pre-intent
   workers was launched and each of those post-intent workers called, and there
   is a commit function exactly if there was a commit worker.
   */
  lemma CallServesRegistered(pre: nat, post: nat, commits: nat, run: seq<Event>, more: seq<Event>)
    requires After(Initial(pre, post, commits), run).caller == Start
    ensures var s0 := After(Initial(pre, post, commits), run);
            var s := After(Initial(pre, post, commits), run + [Enter(false)] + more);
            && (Succeeded(s) ==>
                  && s.caller == Returned(Granted(s0.commits > 0)) && s.preLaunched == s0.pre
                  && s.posts.called == s0.post && s.doneClosed == (if s0.pre > 0 then 1 else 0))
            && (Failed(s) ==> s0.pre > 0 && s.preLaunched == s0.pre && s.doneClosed == 1 && s.posts.called == 0)
  {
    var start := Initial(pre, post, commits);
    RunKeeps(start, run);
    AfterOne(start, run, Enter(false));
    RunKeeps(start, run + [Enter(false)]);
    AfterParts(start, run + [Enter(false)], more);
    EnteredRun(After(start, run), After(start, run + [Enter(false)]), more);
    RunKeeps(start, run + [Enter(false)] + more);
  }

  /** What was returned, and what waits in the error channel, has its cause in the run. */
  predicate Caused(s: State, run: seq<Event>) {
    && (s.errors.Some? ==> SendError(s.errors.value) in run)
    && (s.contextDone ==> CloseContext in run)
    && (s.caller.Returned? ==>
          match s.caller.outcome
          case DeadlineExceeded => Enter(true) in run
          case ContextClosed => CloseContext in run
          case Refused(err) => SendError(err) in run
          case Granted(_) => Leave in run)
  }

  lemma CausedStep(s: State, run: seq<Event>, e: Event)
    requires Caused(s, run)
    ensures Caused(Next(s, e), run + [e])
  {
  }

  /** A call is refused only with an error that a worker sent, and the context's only when it was closed. */
  lemma {:induction false} ReasonOfRun(pre: nat, post: nat, commits: nat, run: seq<Event>)
    ensures Caused(After(Initial(pre, post, commits), run), run)
    decreases |run|
  {
    if run != [] {
      var n := |run| - 1;
      ReasonOfRun(pre, post, commits, run[..n]);
      CausedStep(After(Initial(pre, post, commits), run[..n]), run[..n], run[n]);
      assert run == run[..n] + [run[n]];
    }
  }

  /** While the call selects, a worker's error refuses it, the closed context ends it, and the timer lets it go on. */
  lemma SelectionObeyed(s: State, err: string)
    requires Invariant(s) && s.caller == Selecting
    ensures var refused := Next(Next(s, SendError(err)), TakeError);
            && refused.caller == Returned(Refused(if s.errors.Some? then s.errors.value else err))
            && refused.doneClosed == 1 && refused.released == 1 && refused.errors == None
    ensures var closed := Next(Next(s, CloseContext), TakeContext);
            closed.caller == Returned(ContextClosed) && closed.doneClosed == 1 && closed.released == 1
    ensures Next(s, TakeTimeout) == s.(caller := Posting, doneClosed := 1)
  {
    var sent := Next(s, SendError(err));
    assert sent.caller == Selecting && sent.errors == Some(if s.errors.Some? then s.errors.value else err) by {
      assert s.preLaunched > 0;
    }
    assert sent.doneClosed == 0 && sent.released == 0;
  }

  // --- registration -----------------------------------------------------------------

  function CountOf(run: seq<Event>, e: Event): nat {
    if run == [] then 0 else CountOf(run[..|run| - 1], e) + if run[|run| - 1] == e then 1 else 0
  }

  /** Before the call every registration counts, for its own kind. */
  lemma {:induction false} RegisteredCounts(pre: nat, post: nat, commits: nat, run: seq<Event>)
    requires forall e :: e in run ==> e.Register?
    ensures After(Initial(pre, post, commits), run)
         == Initial(pre + CountOf(run, Register(Pre)), post + CountOf(run, Register(Post)),
                    commits + CountOf(run, Register(Commit)))
    decreases |run|
  {
    if run != [] { RegisteredCounts(pre, post, commits, run[..|run| - 1]); }
  }

  /** A registration waits while the lock is held, and is all that can change the workers. */
  lemma RegistrationWaits(s: State, e: Event)
    ensures e.Register? && (s.readLock || s.group.lock) ==> Next(s, e) == s
    ensures !e.Register? ==> Next(s, e).pre == s.pre && Next(s, e).post == s.post && Next(s, e).commits == s.commits
  {
  }

  // --- the end of the post-intent workers -----------------------------------------

  function PostWork(g: PostGroup): nat
    requires PostsCounted(g)
  {
    (match g.waiter case Adding => 2 case Waiting => 1 case _ => 0)
    + 2 * (g.total - |g.pending|) + CountPending(g.pending)
  }

  /** The goroutine behind the post-intent workers can always collect every result. */
  lemma PostsCanEnd(s: State) returns (more: seq<Event>)
    requires Invariant(s) && s.posts.waiter != NoWaiter
    ensures PostsEnded(After(s, more).posts, s.posts.total)
    decreases PostWork(s.posts)
  {
    if s.posts.waiter == AllPosted {
      more := [];
      PendingZero(s.posts.pending);
    } else {
      var e := PostStepToTake(s.posts);
      StepKeeps(s, InPosts(e));
      var rest := PostsCanEnd(s.(posts := PostStep(s.posts, e)));
      AfterFirst(s, InPosts(e), rest);
      more := [InPosts(e)] + rest;
    }
  }

  predicate PostsEnded(g: PostGroup, total: nat) {
    && g.waiter == AllPosted && g.total == |g.pending| == total
    && forall i :: 0 <= i < total ==> !g.pending[i]
  }

  lemma AfterFirst(s: State, e: Event, rest: seq<Event>)
    ensures After(s, [e] + rest) == After(Next(s, e), rest)
  {
    AfterParts(s, [e], rest);
    AfterOne(s, [], e);
    assert [] + [e] == [e];
  }

  lemma PostStepToTake(g: PostGroup) returns (e: PostEvent)
    requires PostsCounted(g) && g.waiter in {Adding, Waiting}
    ensures PostsCounted(PostStep(g, e)) && PostWork(PostStep(g, e)) < PostWork(g)
    ensures PostStep(g, e).waiter != NoWaiter && PostStep(g, e).total == g.total
  {
    PendingZero(g.pending);
    if g.waiter == Adding {
      e := if |g.pending| < g.total then AddPost else AwaitPosts;
      PendingAppended(g.pending);
    } else if exists i :: 0 <= i < |g.pending| && g.pending[i] {
      var i :| 0 <= i < |g.pending| && g.pending[i];
      e := PostResult(i);
      PendingUpdate(g.pending, i);
    } else {
      e := PostWaitReturns;
    }
    PostStepKeeps(g, e);
  }
}
