/**
 What the turn protocol lets through, and what it leaves behind: when a batch is
 accepted, what opens and closes the gate of a Session that waits for an answer,
 and what each way of ending a turn says in the log.
 */
module SessionGate {
  import opened Wrappers
  import opened SessionProtocol

  // --- when a batch is accepted ---------------------------------------------------

  /** A turn stopped to ask, and the client owes the answer. */
  predicate Parked(row: Row) {
    row.status == Idle && row.stopReason == RequiresAction
  }

  /** A parked Session takes the answer and nothing else; one that is idle and not
      parked takes anything; a running one nothing until its lease has lapsed; a
      terminated or deleted one nothing at all. */
  lemma GateAnswers(c: Config, messages: nat)
    requires messages >= 1
    ensures Parked(c.store.row) ==> !Enabled(c, Send(false, messages))
    ensures Parked(c.store.row) && !c.store.row.deleted ==> Enabled(c, Send(true, messages))
    ensures c.store.row.status == Idle && !Parked(c.store.row) && !c.store.row.deleted ==>
              forall answering :: Enabled(c, Send(answering, messages))
    ensures c.store.row.status == Running && c.store.row.lease.Some? && c.now < c.store.row.lease.value ==>
              forall answering :: !Enabled(c, Send(answering, messages))
    ensures c.store.row.status == Running && !c.store.row.deleted ==>
              (c.store.row.lease.None? || c.store.row.lease.value <= c.now ==> Enabled(c, Send(true, messages)))
    ensures c.store.row.status == Terminated || c.store.row.deleted ==>
              forall answering :: !Enabled(c, Send(answering, messages))
  {
  }

  function UserInputs(first: nat, n: nat): seq<Entry> {
    seq(n, i requires 0 <= i < n => Entry(first + i, UserInput, User))
  }

  /** What an accepted batch does: the row is running, unparked, leased for two
      minutes, on the generation it had; and every event of the batch is in the
      log, each under the next number. */
  lemma SendTakes(c: Config, answering: bool, messages: nat)
    requires Enabled(c, Send(answering, messages))
    ensures var d := Next(c, Send(answering, messages));
            && d.store.row == Row(Running, NoReason, Some(c.now + 120), c.store.row.lockVersion,
                                  c.store.row.lastEventSeq + messages, c.store.row.deleted)
            && d.store.log == c.store.log + UserInputs(c.store.row.lastEventSeq + 1, messages)
    ensures var d := Next(c, Send(answering, messages));
            && |d.dispatches| == |c.dispatches| + 1
            && d.dispatches[|c.dispatches|] == Waiting(Copy(Running, NoReason, Some(c.now + 120), c.store.row.lockVersion))
            && Enabled(d, DispatchFails(|c.dispatches|))
  {
    InputsAppended(Store(Claim(c.store.row, c.now), c.store.log), messages);
  }

  lemma {:induction false} InputsAppended(s: Store, n: nat)
    ensures AppendAll(s, Inputs(n)).log == s.log + UserInputs(s.row.lastEventSeq + 1, n)
    decreases n
  {
    if n > 0 {
      var t := Append(s, UserInput, User);
      assert Inputs(n)[1..] == Inputs(n - 1);
      InputsAppended(t, n - 1);
      assert UserInputs(s.row.lastEventSeq + 1, n)
          == [Entry(s.row.lastEventSeq + 1, UserInput, User)] + UserInputs(t.row.lastEventSeq + 1, n - 1);
    }
  }

  // --- parked, and not ------------------------------------------------------------

  /** What takes a parked Session out of its parking: an answer, or the release of
      a request or worker that has another reason to give than its copy had. */
  predicate Unparks(c: Config, step: Step)
    requires Enabled(c, step)
  {
    match step
    case Send(answering, _) => answering
    case Refuse(_) => true
    case Finish(w, reason, _) => reason == EndTurn && c.workers[w].copy.stopReason != EndTurn
    case Fail(w, _) => c.workers[w].copy.stopReason != Failed
    case InterruptCommit(k) =>
      var copy := c.cancels[k].copy;
      (copy.status == Running || copy.stopReason == RequiresAction) && copy.stopReason != Interrupted
    case _ => false
  }

  lemma UnparkStep(c: Config, step: Step)
    requires CopiesLoaded(c) && Parked(c.store.row) && Enabled(c, step)
    ensures Parked(Next(c, step).store.row) <==> !Unparks(c, step)
  {
  }

  predicate StaysParked(c: Config, steps: seq<Step>)
    requires Runs(c, steps)
    decreases |steps|
  {
    Parked(c.store.row) && (steps != [] ==> StaysParked(Next(c, steps[0]), steps[1..]))
  }

  predicate NeverUnparks(c: Config, steps: seq<Step>)
    requires Runs(c, steps)
    decreases |steps|
  {
    steps == [] || (!Unparks(c, steps[0]) && NeverUnparks(Next(c, steps[0]), steps[1..]))
  }

  /** The gate of a parked Session stays closed at every moment of a run if and
      only if no answer and no such release is in it: no message ever opens it. */
  lemma {:induction false} ParkedUntilAnswered(c: Config, steps: seq<Step>)
    requires CopiesLoaded(c) && Parked(c.store.row) && Runs(c, steps)
    ensures StaysParked(c, steps) <==> NeverUnparks(c, steps)
    ensures StaysParked(c, steps) ==> forall i :: 0 <= i < |steps| ==> !steps[i].Send?
    decreases |steps|
  {
    if steps != [] {
      UnparkStep(c, steps[0]);
      if !Unparks(c, steps[0]) {
        CopiesLoadedStep(c, steps[0]);
        ParkedUntilAnswered(Next(c, steps[0]), steps[1..]);
        GateAnswers(c, 1);
        assert forall i :: 0 < i < |steps| ==> steps[i] == steps[1..][i - 1];
      }
    }
  }

  /** And only a turn that stopped to ask parks one, unless the row already had
      that reason and was not idle. */
  lemma ParkStep(c: Config, step: Step)
    requires Enabled(c, step) && !Parked(c.store.row) && Parked(Next(c, step).store.row)
    ensures (step.Finish? && step.reason == RequiresAction) || c.store.row.stopReason == RequiresAction
  {
  }

  // --- deleted for good -------------------------------------------------------------

  lemma DeleteDeletes(c: Config)
    ensures Enabled(c, Delete)
    ensures Next(c, Delete) == c.(store := Store(c.store.row.(deleted := true), c.store.log))
  {
  }

  lemma DeletedStep(c: Config, step: Step)
    requires Enabled(c, step) && c.store.row.deleted
    ensures Next(c, step).store.row.deleted && !step.Send? && !step.Sweep? && !step.InterruptRead?
    ensures Next(c, step).past.claims == c.past.claims && Next(c, step).past.sweeps == c.past.sweeps
  {
  }

  /** A deleted Session stays deleted: nothing claims it, sweeps it or loads it to
      interrupt it, whatever else goes on. */
  lemma {:induction false} DeletedIsFinal(c: Config, steps: seq<Step>)
    requires c.store.row.deleted && Runs(c, steps)
    ensures After(c, steps).store.row.deleted
    ensures After(c, steps).past.claims == c.past.claims && After(c, steps).past.sweeps == c.past.sweeps
    ensures forall i :: 0 <= i < |steps| ==> !steps[i].Send? && !steps[i].Sweep? && !steps[i].InterruptRead?
    decreases |steps|
  {
    if steps != [] {
      DeletedStep(c, steps[0]);
      DeletedIsFinal(Next(c, steps[0]), steps[1..]);
      assert forall i :: 0 < i < |steps| ==> steps[i] == steps[1..][i - 1];
    }
  }

  // --- the life of a worker ------------------------------------------------------------

  /** What a worker can do next, wherever it is in its turn. */
  lemma WorkerMay(c: Config, w: nat)
    requires w < |c.workers|
    ensures Enabled(c, Begin(w)) <==> c.workers[w].pc == Loaded
    ensures Enabled(c, Refuse(w)) <==> c.workers[w].pc == Loaded
    ensures forall idle :: Enabled(c, Check(w, idle)) <==> c.workers[w].pc == Working
    ensures Enabled(c, Write(w)) <==> c.workers[w].pc == Checked(true) || c.workers[w].pc == Checked(false)
    ensures forall reason, lost ::
              Enabled(c, Finish(w, reason, lost))
              <==> c.workers[w].pc == Announced && (reason == EndTurn || reason == RequiresAction)
    ensures forall lost ::
              Enabled(c, Fail(w, lost))
              <==> c.workers[w].pc in {Working, Checked(true), Checked(false), Announced}
    ensures forall lost :: Enabled(c, Unwind(w, lost)) <==> c.workers[w].pc == Cancelled
    ensures Enabled(c, Crash(w))
    ensures Enabled(c, BeatRead(w))
       <==> && c.workers[w].pc in {Working, Checked(true), Checked(false), Announced}
            && c.store.row.status == Running && c.now >= c.workers[w].since + 45
  {
  }

  /** The worker a step is one of, if it is one. */
  predicate IsBy(step: Step, w: nat) {
    match step
    case Begin(v) => v == w
    case Check(v, _) => v == w
    case Write(v) => v == w
    case Refuse(v) => v == w
    case Finish(v, _, _) => v == w
    case Fail(v, _) => v == w
    case Unwind(v, _) => v == w
    case Crash(v) => v == w
    case _ => false
  }

  /** And where that takes it: each event it writes costs a check of the generation,
      and the last it writes is that the Session is idle. */
  function TurnGoesOn(c: Config, step: Step, w: nat): Pc
    requires w < |c.workers|
  {
    var worker, row := c.workers[w], c.store.row;
    if !IsBy(step, w) then worker.pc
    else
      match step
      case Begin(_) => Working
      case Check(_, idle) =>
        if row.lockVersion == worker.copy.lockVersion && row.status == Running then Checked(idle) else Cancelled
      case Write(_) => if worker.pc == Checked(true) then Announced else Working
      case _ => Done
  }

  /** The same worker as far as its turn goes. */
  predicate SameTurn(c: Config, d: Config, w: nat) {
    w < |c.workers| <= |d.workers| && d.workers[w].pc == c.workers[w].pc && d.workers[w].copy == c.workers[w].copy
  }

  lemma ReleasedSameTurn(c: Config, copy: Copy, status: Status, reason: StopReason, w: nat)
    requires w < |c.workers|
    ensures SameTurn(c, Released(c, copy, status, reason), w)
  {
  }

  lemma OwnRelease(c: Config, step: Step, w: nat)
    requires Enabled(c, step) && w < |c.workers| && (step.Refuse? || step.Finish? || step.Fail?)
    ensures w < |Next(c, step).workers| && Next(c, step).workers[w].copy == c.workers[w].copy
    ensures Next(c, step).workers[w].pc == if step.worker == w then Done else c.workers[w].pc
  {
    var worker := c.workers[step.worker].(pc := Done);
    match step {
      case Refuse(v) =>
        ReleasedSameTurn(Logged(Moved(c, v, worker), [(SessionError, System), (StatusTerminated, System)]),
                         worker.copy, Terminated, Unusable, w);
      case Finish(v, reason, lost) =>
        ReleasedSameTurn(Logged(Moved(c, v, worker), Outputs(lost)), worker.copy, Idle, reason, w);
      case Fail(v, lost) =>
        var events := Outputs(lost) + [(SessionError, System), (StatusIdle, System)];
        ReleasedSameTurn(Logged(Moved(c, v, worker), events), worker.copy, Idle, Failed, w);
    }
  }

  lemma OthersRelease(c: Config, step: Step, w: nat)
    requires Enabled(c, step) && w < |c.workers| && (step.DispatchFails? || step.InterruptCommit? || step.Sweep?)
    ensures SameTurn(c, Next(c, step), w)
  {
  }

  lemma NoRelease(c: Config, step: Step, w: nat)
    requires Enabled(c, step) && w < |c.workers|
    requires !step.Refuse? && !step.Finish? && !step.Fail? && !step.DispatchFails? && !step.InterruptCommit? && !step.Sweep?
    ensures w < |Next(c, step).workers| && Next(c, step).workers[w].copy == c.workers[w].copy
    ensures Next(c, step).workers[w].pc == TurnGoesOn(c, step, w)
  {
  }

  /** No step moves a worker but its own. */
  lemma WorkerMoves(c: Config, step: Step, w: nat)
    requires Enabled(c, step) && w < |c.workers|
    ensures w < |Next(c, step).workers| && Next(c, step).workers[w].copy == c.workers[w].copy
    ensures Next(c, step).workers[w].pc == TurnGoesOn(c, step, w)
  {
    if step.Refuse? || step.Finish? || step.Fail? {
      OwnRelease(c, step, w);
    } else if step.DispatchFails? || step.InterruptCommit? || step.Sweep? {
      OthersRelease(c, step, w);
    } else {
      NoRelease(c, step, w);
    }
  }

  /** A request loads the row as it is, commits once, and settles nobody else's. */
  lemma RequestsCommitOnce(c: Config, step: Step)
    requires Enabled(c, step)
    ensures step.InterruptRead? ==>
              Next(c, step).cancels == c.cancels + [Waiting(CopyOf(c.store.row))]
              && CopyOf(c.store.row).lockVersion == c.store.row.lockVersion
    ensures step.InterruptCommit? ==>
              !Enabled(Next(c, step), step) && Next(c, step).cancels == c.cancels[step.request := Settled]
    ensures step.DispatchFails? ==>
              !Enabled(Next(c, step), step) && Next(c, step).dispatches == c.dispatches[step.request := Settled]
  {
  }

  /** In every run: a worker that is done says and does nothing more. */
  lemma {:induction false} DoneIsFinal(c: Config, steps: seq<Step>, w: nat)
    requires w < |c.workers| && c.workers[w].pc == Done && Runs(c, steps)
    ensures w < |After(c, steps).workers| && After(c, steps).workers[w].pc == Done
    ensures forall i :: 0 <= i < |steps| ==> !IsBy(steps[i], w) || steps[i] == Crash(w)
    decreases |steps|
  {
    if steps != [] {
      WorkerMay(c, w);
      WorkerMoves(c, steps[0], w);
      DoneIsFinal(Next(c, steps[0]), steps[1..], w);
      assert forall i :: 0 < i < |steps| ==> steps[i] == steps[1..][i - 1];
    }
  }

  // --- what the ends of turns say ------------------------------------------------------

  /** What was said, from entry `n` on. */
  function SaidSince(s: Store, n: nat): seq<(Kind, Source)>
    requires n <= |s.log|
  {
    seq(|s.log| - n, i requires 0 <= i < |s.log| - n => (s.log[n + i].kind, s.log[n + i].source))
  }

  lemma {:induction false} AppendAllSays(s: Store, events: seq<(Kind, Source)>)
    ensures |s.log| <= |AppendAll(s, events).log| && SaidSince(AppendAll(s, events), |s.log|) == events
    decreases |events|
  {
    if events != [] {
      var s' := Append(s, events[0].0, events[0].1);
      AppendAllSays(s', events[1..]);
      var t, n := AppendAll(s', events[1..]), |s.log|;
      assert t.log[n] == s'.log[n];
      assert SaidSince(t, n)[1..] == SaidSince(t, n + 1);
      assert events == [events[0]] + events[1..];
      assert SaidSince(t, n) == [SaidSince(t, n)[0]] + SaidSince(t, n)[1..];
    }
  }

  const SORRY: seq<(Kind, Source)> := [(SessionError, System)]
  const SORRY_AND_IDLE: seq<(Kind, Source)> := [(SessionError, System), (StatusIdle, System)]

  /** What a step is to write to the log. A turn that fails, is refused or is swept
      says what went wrong before it says that it is over; lost outputs are an error
      of their own; an interrupt is recorded as the user's, whether or not it ends
      anything; and a worker writes what it checked for. */
  function Script(c: Config, step: Step): seq<(Kind, Source)>
    requires Enabled(c, step)
  {
    match step
    case Send(_, n) => seq(n, _ => (UserInput, User))
    case DispatchFails(_) => if c.store.row.status == Running then SORRY_AND_IDLE else []
    case Refuse(_) => [(SessionError, System), (StatusTerminated, System)]
    case Write(w) => [(if c.workers[w].pc == Checked(true) then StatusIdle else AgentOutput, Agent)]
    case Finish(_, _, lost) => if lost then SORRY else []
    case Fail(_, lost) => if lost then SORRY + SORRY_AND_IDLE else SORRY_AND_IDLE
    case Unwind(_, lost) => if lost then SORRY else []
    case InterruptCommit(k) =>
      var copy := c.cancels[k].copy;
      if copy.status == Running || copy.stopReason == RequiresAction
      then [(UserInterrupt, User), (StatusIdle, System)]
      else [(UserInterrupt, User)]
    case Sweep => SORRY_AND_IDLE
    case _ => []
  }

  lemma LogGrewBy(s: Store, from: Store, events: seq<(Kind, Source)>, t: Store)
    requires from.log == s.log && t.log == AppendAll(from, events).log
    ensures s.log <= t.log && SaidSince(t, |s.log|) == events
  {
    AppendAllSays(from, events);
  }

  /** And it writes that, whatever the step. */
  lemma StepSays(c: Config, step: Step)
    requires Enabled(c, step)
    ensures c.store.log <= Next(c, step).store.log
    ensures SaidSince(Next(c, step).store, |c.store.log|) == Script(c, step)
  {
    match step
    case Send(_, n) => LogGrewBy(c.store, Store(Claim(c.store.row, c.now), c.store.log), Inputs(n), Next(c, step).store);
    case Refuse(_) => WorkerSays(c, step);
    case Write(_) => WorkerSays(c, step);
    case Finish(_, _, _) => WorkerSays(c, step);
    case Fail(_, _) => FailSays(c, step);
    case Unwind(_, _) => WorkerSays(c, step);
    case Sweep => LogGrewBy(c.store, c.store, SORRY_AND_IDLE, Next(c, step).store);
    case InterruptCommit(_) => RequestSays(c, step);
    case DispatchFails(_) => RequestSays(c, step);
    case _ => QuietStep(c, step);
  }

  lemma WorkerSays(c: Config, step: Step)
    requires Enabled(c, step) && (step.Refuse? || step.Write? || step.Finish? || step.Unwind?)
    ensures c.store.log <= Next(c, step).store.log
    ensures SaidSince(Next(c, step).store, |c.store.log|) == Script(c, step)
  {
    LogGrewBy(c.store, c.store, Script(c, step), Next(c, step).store);
  }

  lemma FailSays(c: Config, step: Step)
    requires Enabled(c, step) && step.Fail?
    ensures c.store.log <= Next(c, step).store.log
    ensures SaidSince(Next(c, step).store, |c.store.log|) == Script(c, step)
  {
    assert [] + SORRY_AND_IDLE == SORRY_AND_IDLE;
    LogGrewBy(c.store, c.store, Outputs(step.lostOutputs) + SORRY_AND_IDLE, Next(c, step).store);
  }

  lemma RequestSays(c: Config, step: Step)
    requires Enabled(c, step) && (step.InterruptCommit? || step.DispatchFails?)
    ensures c.store.log <= Next(c, step).store.log
    ensures SaidSince(Next(c, step).store, |c.store.log|) == Script(c, step)
  {
    LogGrewBy(c.store, c.store, Script(c, step), Next(c, step).store);
  }

  lemma QuietStep(c: Config, step: Step)
    requires Enabled(c, step)
    requires step.Tick? || step.Deliver? || step.Begin? || step.Check? || step.Crash? || step.BeatRead? || step.BeatWrite?
             || step.InterruptRead? || step.Delete?
    ensures Next(c, step).store.log == c.store.log && SaidSince(Next(c, step).store, |c.store.log|) == []
    ensures Script(c, step) == []
  {
  }

  /** The end of a turn that no worker announced comes right after what went wrong,
      or after the user's interrupt. */
  predicate Explained(log: seq<Entry>, i: nat)
    requires i < |log|
  {
    log[i].source == System && (log[i].kind == StatusIdle || log[i].kind == StatusTerminated) ==>
      && i > 0
      && ((log[i - 1].kind == SessionError && log[i - 1].source == System)
          || (log[i].kind == StatusIdle && log[i - 1].kind == UserInterrupt && log[i - 1].source == User))
  }

  ghost predicate AllExplained(log: seq<Entry>) {
    forall i: nat :: i < |log| ==> Explained(log, i)
  }

  predicate ExplainsItself(script: seq<(Kind, Source)>) {
    forall k :: 0 <= k < |script| && script[k].1 == System && (script[k].0 == StatusIdle || script[k].0 == StatusTerminated) ==>
      && k > 0
      && (script[k - 1] == (SessionError, System) || (script[k].0 == StatusIdle && script[k - 1] == (UserInterrupt, User)))
  }

  lemma ScriptExplains(c: Config, step: Step)
    requires Enabled(c, step)
    ensures ExplainsItself(Script(c, step))
  {
  }

  lemma ExplainedGrew(s: Store, t: Store, script: seq<(Kind, Source)>)
    requires AllExplained(s.log) && s.log <= t.log && SaidSince(t, |s.log|) == script && ExplainsItself(script)
    ensures AllExplained(t.log)
  {
    forall i: nat | i < |t.log|
      ensures Explained(t.log, i)
    {
      var k := i - |s.log|;
      if k < 0 {
        assert Explained(s.log, i);
      } else {
        assert script[k] == (t.log[i].kind, t.log[i].source);
        assert k > 0 ==> script[k - 1] == (t.log[i - 1].kind, t.log[i - 1].source);
      }
    }
  }

  lemma ExplainedStep(c: Config, step: Step)
    requires Enabled(c, step) && AllExplained(c.store.log)
    ensures AllExplained(Next(c, step).store.log)
  {
    StepSays(c, step);
    ScriptExplains(c, step);
    ExplainedGrew(c.store, Next(c, step).store, Script(c, step));
  }

  /** In every run: no turn ends without a word but by its own worker. */
  lemma {:induction false} EndsAreExplained(c: Config, steps: seq<Step>)
    requires AllExplained(c.store.log) && Runs(c, steps)
    ensures AllExplained(After(c, steps).store.log)
    decreases |steps|
  {
    if steps != [] {
      ExplainedStep(c, steps[0]);
      EndsAreExplained(Next(c, steps[0]), steps[1..]);
    }
  }

  /** What the row gives as the reason, when the copy it was released from gave
      another: how the turn ended. */
  lemma EndGives(c: Config, step: Step)
    requires Enabled(c, step)
    ensures step.Finish? && c.workers[step.worker].copy.stopReason != step.reason ==>
              Next(c, step).store.row.stopReason == step.reason
    ensures step.Fail? && c.workers[step.worker].copy.stopReason != Failed ==> Next(c, step).store.row.stopReason == Failed
    ensures step.Refuse? && c.workers[step.worker].copy.stopReason != Unusable ==> Next(c, step).store.row.stopReason == Unusable
    ensures step.DispatchFails? && c.store.row.status == Running && c.dispatches[step.request].copy.stopReason != Failed ==>
              Next(c, step).store.row.stopReason == Failed
    ensures step.Sweep? ==> Next(c, step).store.row.stopReason == Failed
    ensures step.InterruptCommit? && c.cancels[step.request].copy.stopReason == RequiresAction ==>
              Next(c, step).store.row.stopReason == Interrupted
    ensures step.InterruptCommit? && c.cancels[step.request].copy.status == Running
            && c.cancels[step.request].copy.stopReason != Interrupted ==>
              Next(c, step).store.row.stopReason == Interrupted
  {
  }
}
