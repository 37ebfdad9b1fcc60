/**
 Runs of the turn protocol, each from a new Session, that show what its theorems
 leave open really happens.
 */
module SessionRuns {
  import opened Wrappers
  import opened SessionProtocol

  // --- building a run -----------------------------------------------------------

  function Watched(steps: seq<Step>): Config
    requires Runs(START, steps)
  {
    After(START, steps)
  }

  lemma Taken(steps: seq<Step>, step: Step) returns (longer: seq<Step>)
    requires Runs(START, steps) && Enabled(Watched(steps), step)
    ensures Runs(START, longer) && Watched(longer) == Next(Watched(steps), step)
    ensures longer == steps + [step]
  {
    var c := After(START, steps);
    assert [step][1..] == [];
    assert Runs(Next(c, step), []) && Runs(c, [step]);
    assert After(c, [step]) == Next(c, step);
    RunsSplit(START, steps, [step]);
    longer := steps + [step];
  }

  function CopyAt(generation: nat): Copy {
    Copy(Running, NoReason, Some(LEASE_SECONDS), generation)
  }

  function RunningRow(generation: nat): Row {
    Row(Running, NoReason, Some(LEASE_SECONDS), generation, 0, false)
  }

  function IdleRow(reason: StopReason, generation: nat): Row {
    Row(Idle, reason, None, generation, 0, false)
  }

  function WorkerAt(pc: Pc, generation: nat, astray: nat): Worker {
    Worker(pc, CopyAt(generation), false, 0, 0, astray, astray)
  }

  /** Who has been and gone, a generation later. */
  function Gone(generation: nat): Worker {
    Worker(Done, CopyAt(generation), false, 0, 0, 1, 0)
  }

  function Unnumbered(row: Row): Row {
    Row(row.status, row.stopReason, row.lease, row.lockVersion, 0, row.deleted)
  }

  /** Where a configuration of these runs stands, leaving out its log. */
  predicate At(c: Config, row: Row, workers: seq<Worker>, stale: nat) {
    && Unnumbered(c.store.row) == row && c.now == 0 && c.past.claimedAt == 0 && c.past.takeovers == 0
    && c.workers == workers && c.past.stale == stale
  }

  lemma Sends(steps: seq<Step>, row: Row, workers: seq<Worker>, stale: nat, answering: bool) returns (longer: seq<Step>)
    requires Runs(START, steps) && At(Watched(steps), row, workers, stale)
    requires row.status.Idle? && !row.deleted && (answering || !row.stopReason.RequiresAction?)
    ensures Runs(START, longer)
    ensures At(Watched(longer), RunningRow(row.lockVersion), workers, stale)
    ensures Watched(longer).cancels == Watched(steps).cancels && Watched(longer).past.torn == Watched(steps).past.torn
    ensures Watched(longer).past.claims == Watched(steps).past.claims + multiset{row.lockVersion}
  {
    longer := Taken(steps, Send(answering, 1));
  }

  /** A worker takes the running row and sets to work. */
  lemma Joins(steps: seq<Step>, generation: nat, workers: seq<Worker>, stale: nat) returns (longer: seq<Step>)
    requires Runs(START, steps) && At(Watched(steps), RunningRow(generation), workers, stale)
    ensures Runs(START, longer)
    ensures At(Watched(longer), RunningRow(generation), workers + [WorkerAt(Working, generation, 0)], stale)
    ensures Watched(longer).cancels == Watched(steps).cancels && Watched(longer).past.torn == Watched(steps).past.torn
    ensures Watched(longer).past.claims == Watched(steps).past.claims
  {
    longer := Taken(steps, Deliver);
    longer := Taken(longer, Begin(|workers|));
    assert Watched(longer).workers == workers + [WorkerAt(Working, generation, 0)];
  }

  /** It announces the end of its turn, and goes to collect the outputs. */
  lemma SaysIdle(steps: seq<Step>, generation: nat, workers: seq<Worker>, stale: nat) returns (longer: seq<Step>)
    requires Runs(START, steps)
    requires At(Watched(steps), RunningRow(generation), workers + [WorkerAt(Working, generation, 0)], stale)
    ensures Runs(START, longer)
    ensures At(Watched(longer), RunningRow(generation), workers + [WorkerAt(Announced, generation, 0)], stale)
    ensures Watched(longer).cancels == Watched(steps).cancels && Watched(longer).past.torn == Watched(steps).past.torn
    ensures Watched(longer).past.claims == Watched(steps).past.claims
  {
    longer := Taken(steps, Check(|workers|, true));
    longer := Taken(longer, Write(|workers|));
    assert Watched(longer).workers == workers + [WorkerAt(Announced, generation, 0)];
  }

  // --- the fence ------------------------------------------------------------------

  /** The worker's generation is the row's again, `j` stray events on; requests
      that read the generation before are still to commit. */
  predicate Poised(c: Config, n: nat, j: nat) {
    && At(c, RunningRow(1), [WorkerAt(Working, 1, j)], j) && c.past.claims[1] == j + 1
    && |c.cancels| >= n && forall i :: j < i < n ==> c.cancels[i] == Waiting(CopyAt(0))
  }

  /** It has just written one more, with the generation moved on. */
  predicate Strayed(c: Config, n: nat, j: nat) {
    && At(c, IdleRow(Interrupted, 2), [WorkerAt(Working, 1, j + 1)], j) && c.past.claims[1] == j + 1
    && |c.cancels| >= n && forall i :: j < i < n ==> c.cancels[i] == Waiting(CopyAt(0))
  }

  lemma {:induction false} ManyRead(n: nat) returns (steps: seq<Step>)
    ensures Runs(START, steps) && At(Watched(steps), RunningRow(0), [], 0)
    ensures Watched(steps).cancels == seq(n, _ => Waiting(CopyAt(0))) && Watched(steps).past.claims[1] == 0
    decreases n
  {
    if n == 0 {
      steps := Sends([], IdleRow(NoReason, 0), [], 0, false);
    } else {
      steps := ManyRead(n - 1);
      steps := Taken(steps, InterruptRead);
      assert Watched(steps).cancels == seq(n, _ => Waiting(CopyAt(0)));
    }
  }

  lemma Begins(n: nat) returns (steps: seq<Step>)
    requires n >= 1
    ensures Runs(START, steps) && Poised(Watched(steps), n, 0)
  {
    steps := ManyRead(n);
    steps := Taken(steps, InterruptCommit(0));
    assert At(Watched(steps), IdleRow(Interrupted, 1), [], 0);
    steps := Sends(steps, IdleRow(Interrupted, 1), [], 0, false);
    steps := Joins(steps, 1, [], 0);
    assert [] + [WorkerAt(Working, 1, 0)] == [WorkerAt(Working, 1, 0)];
  }

  /** It passes its check, and is interrupted. */
  lemma IsInterrupted(sofar: seq<Step>, n: nat, j: nat) returns (steps: seq<Step>)
    requires Runs(START, sofar) && Poised(Watched(sofar), n, j)
    ensures Runs(START, steps)
    ensures At(Watched(steps), IdleRow(Interrupted, 2), [Worker(Checked(false), CopyAt(1), false, 0, 0, j + 1, j)], j)
    ensures |Watched(steps).cancels| >= n && forall i :: j < i < n ==> Watched(steps).cancels[i] == Waiting(CopyAt(0))
    ensures Watched(steps).past.claims[1] == j + 1
  {
    var m := |Watched(sofar).cancels|;
    steps := Taken(sofar, Check(0, false));
    steps := Taken(steps, InterruptRead);
    assert Watched(steps).cancels[m] == Waiting(CopyAt(1));
    steps := Taken(steps, InterruptCommit(m));
    assert Watched(steps).workers == [Worker(Checked(false), CopyAt(1), false, 0, 0, j + 1, j)];
  }

  /** And writes. */
  lemma Stray(sofar: seq<Step>, n: nat, j: nat) returns (steps: seq<Step>)
    requires Runs(START, sofar) && Poised(Watched(sofar), n, j)
    ensures Runs(START, steps) && Strayed(Watched(steps), n, j)
  {
    steps := IsInterrupted(sofar, n, j);
    steps := Taken(steps, Write(0));
    assert Watched(steps).workers == [WorkerAt(Working, 1, j + 1)];
  }

  /** A request from the generation before puts the worker's back. */
  lemma Restored(sofar: seq<Step>, n: nat, j: nat) returns (steps: seq<Step>)
    requires Runs(START, sofar) && Strayed(Watched(sofar), n, j) && j + 1 < n
    ensures Runs(START, steps) && Poised(Watched(steps), n, j + 1)
  {
    steps := Taken(sofar, InterruptCommit(j + 1));
    assert Watched(steps).workers == [WorkerAt(Working, 1, j + 1)];
    steps := Sends(steps, IdleRow(Interrupted, 1), [WorkerAt(Working, 1, j + 1)], j + 1, false);
  }

  lemma {:induction false} Strays(n: nat, j: nat) returns (steps: seq<Step>)
    requires j < n
    ensures Runs(START, steps) && Strayed(Watched(steps), n, j)
    decreases j
  {
    if j == 0 {
      steps := Begins(n);
    } else {
      steps := Strays(n, j - 1);
      steps := Restored(steps, n, j - 1);
    }
    steps := Stray(steps, n, j);
  }

  /** The bounds on the fence are attained: for every n there is a run in which
      one worker writes n events outside its generation, one for each time the
      generation left it, with n - 1 stale releases; and so is the bound on claims,
      for its generation has been claimed n times. */
  lemma FenceBreaksOnStaleRelease(n: nat) returns (steps: seq<Step>)
    requires n >= 1
    ensures Runs(START, steps)
    ensures var c := Watched(steps);
            && |c.workers| == 1 && c.past.stale == n - 1 && c.past.takeovers == 0
            && c.workers[0].staleWrites == c.workers[0].departures == n
            && c.past.claims[1] == n
  {
    steps := Strays(n, n - 1);
  }

  /** The first turn of a Session, up to its release. */
  lemma FirstTurn() returns (steps: seq<Step>)
    ensures Runs(START, steps)
    ensures At(Watched(steps), RunningRow(0), [WorkerAt(Announced, 0, 0)], 0)
    ensures Watched(steps).cancels == [] && Watched(steps).past.torn == 0
    ensures Watched(steps).past.claims == multiset{0}
  {
    steps := Sends([], IdleRow(NoReason, 0), [], 0, false);
    steps := Joins(steps, 0, [], 0);
    steps := SaysIdle(steps, 0, [], 0);
    assert [] + [WorkerAt(Announced, 0, 0)] == [WorkerAt(Announced, 0, 0)];
  }

  // --- termination -------------------------------------------------------------------

  /** A duplicate callback finds the sandbox gone and terminates; the first
      worker's release then reopens the Session. */
  lemma TerminatedBreaksOnStaleRelease() returns (steps: seq<Step>, reopened: seq<Step>)
    ensures Runs(START, steps) && Watched(steps).store.row.status.Terminated?
    ensures Runs(START, reopened) && steps < reopened
    ensures Claimable(Watched(reopened).store.row, false, 0) && Watched(reopened).past.stale == 1
  {
    steps := FirstTurn();
    steps := Taken(steps, Deliver);
    steps := Taken(steps, Refuse(1));
    reopened := Taken(steps, Finish(0, EndTurn, false));
  }

  /** A turn is refused, and the Session terminated: before, and after. */
  lemma IsRefused() returns (before: seq<Step>, steps: seq<Step>)
    ensures Runs(START, before) && Runs(START, steps) && before < steps
    ensures Watched(steps).store.row.status.Terminated?
    ensures var log := Watched(steps).store.log;
            |log| > |Watched(before).store.log| && log[|log| - 1].kind.StatusTerminated?
  {
    before := Taken([], Send(false, 1));
    before := Taken(before, Deliver);
    LastLogged(Watched(before).store, (SessionError, System), (StatusTerminated, System));
    steps := Taken(before, Refuse(0));
    LogNumbered(before);
    LogNumbered(steps);
  }

  // --- late unparking ----------------------------------------------------------------

  /** A turn stops to ask, and a user goes to interrupt the wait. */
  lemma InterruptsTheWait() returns (steps: seq<Step>)
    ensures Runs(START, steps)
    ensures At(Watched(steps), IdleRow(RequiresAction, 1), [Gone(0)], 0)
    ensures Watched(steps).cancels == [Waiting(Copy(Idle, RequiresAction, None, 1))]
    ensures Watched(steps).past.torn == 0 && Watched(steps).past.claims == multiset{0}
  {
    steps := FirstTurn();
    steps := Taken(steps, Finish(0, RequiresAction, false));
    assert Watched(steps).workers == [Gone(0)];
    steps := Taken(steps, InterruptRead);
  }

  lemma LastLogged(s: Store, first: (Kind, Source), last: (Kind, Source))
    ensures var t := AppendAll(s, [first, last]);
            t.log != [] && t.log[|t.log| - 1].kind == last.0
  {
    assert [first, last][1..] == [last] && [last][1..] == [];
    var t := Append(s, first.0, first.1);
    assert AppendAll(s, [first, last]) == AppendAll(t, [last]) == AppendAll(Append(t, last.0, last.1), []);
  }

  /** It commits after the answer has claimed the Session: the log says idle, and
      the row is running, on a generation nobody owns, until the lease lapses. */
  lemma TornReleaseLeavesRunning() returns (steps: seq<Step>)
    ensures Runs(START, steps)
    ensures var c := Watched(steps);
            && c.past.stale == 0 && c.past.torn == 1
            && c.store.log != [] && c.store.log[|c.store.log| - 1].kind.StatusIdle?
            && c.store.row.status.Running? && c.store.row.lockVersion !in c.past.claims
            && !Claimable(c.store.row, false, c.now) && !Claimable(c.store.row, true, c.now)
  {
    steps := InterruptsTheWait();
    steps := Sends(steps, IdleRow(RequiresAction, 1), Watched(steps).workers, 0, true);
    LastLogged(Watched(steps).store, (UserInterrupt, User), (StatusIdle, System));
    steps := Taken(steps, InterruptCommit(0));
  }

  /** The answered turn ends and the next begins. */
  lemma NextTurnBegins() returns (steps: seq<Step>)
    ensures Runs(START, steps)
    ensures At(Watched(steps), RunningRow(2), [Gone(0), Gone(1), WorkerAt(Working, 2, 0)], 0)
    ensures Watched(steps).cancels == [Waiting(Copy(Idle, RequiresAction, None, 1))] && Watched(steps).past.torn == 0
  {
    steps := InterruptsTheWait();
    steps := Sends(steps, IdleRow(RequiresAction, 1), [Gone(0)], 0, true);
    steps := Joins(steps, 1, [Gone(0)], 0);
    steps := SaysIdle(steps, 1, [Gone(0)], 0);
    steps := Taken(steps, Finish(1, EndTurn, false));
    assert Watched(steps).workers == [Gone(0), Gone(1)];
    steps := Sends(steps, IdleRow(EndTurn, 2), [Gone(0), Gone(1)], 0, false);
    steps := Joins(steps, 2, [Gone(0), Gone(1)], 0);
    assert [Gone(0), Gone(1)] + [WorkerAt(Working, 2, 0)] == [Gone(0), Gone(1), WorkerAt(Working, 2, 0)];
  }

  /** The next turn's worker is at work, on the row's generation, and the row is
      running. */
  predicate GoesOn(c: Config) {
    && c.workers == [Gone(0), Gone(1), WorkerAt(Working, 2, 0)]
    && c.store.row.status.Running? && c.store.row.lockVersion == 2
  }

  predicate LastIs(log: seq<Entry>, kind: Kind) {
    log != [] && log[|log| - 1].kind == kind
  }

  /** Or only then: its stale release leaves the next worker its generation. The
      log says idle, and that worker goes on writing. */
  lemma StaleUnparkingStopsNobody() returns (steps: seq<Step>, written: seq<Step>)
    ensures Runs(START, steps) && Watched(steps).past.stale == 1 && Watched(steps).past.torn == 0
    ensures GoesOn(Watched(steps)) && LastIs(Watched(steps).store.log, StatusIdle)
    ensures Runs(START, written) && steps < written
    ensures GoesOn(Watched(written)) && LastIs(Watched(written).store.log, AgentOutput)
  {
    var begun := NextTurnBegins();
    LastLogged(Watched(begun).store, (UserInterrupt, User), (StatusIdle, System));
    steps := Taken(begun, InterruptCommit(0));
    assert Watched(steps).workers == [Gone(0), Gone(1), WorkerAt(Working, 2, 0)];
    written := WritesOn(steps);
  }

  lemma WritesOn(sofar: seq<Step>) returns (steps: seq<Step>)
    requires Runs(START, sofar) && GoesOn(Watched(sofar))
    ensures Runs(START, steps) && sofar < steps && GoesOn(Watched(steps))
    ensures LastIs(Watched(steps).store.log, AgentOutput)
  {
    steps := Taken(sofar, Check(2, false));
    assert Watched(steps).workers == [Gone(0), Gone(1), WorkerAt(Checked(false), 2, 0)];
    steps := Taken(steps, Write(2));
    assert Watched(steps).workers == [Gone(0), Gone(1), WorkerAt(Working, 2, 0)];
    AppendOne(Watched(sofar).store, AgentOutput, Agent);
  }

  lemma AppendOne(s: Store, kind: Kind, source: Source)
    ensures AppendAll(s, [(kind, source)]) == Append(s, kind, source)
  {
    assert [(kind, source)][1..] == [];
    assert AppendAll(s, [(kind, source)]) == AppendAll(Append(s, kind, source), []);
  }
}
