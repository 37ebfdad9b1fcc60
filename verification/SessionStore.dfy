/**
 The code that runs the steps of `SessionProtocol`, in the form it has: a row
 whose columns are assigned, a log that grows, and functions that work from a
 copy of the row they loaded before they held its lock. Each method is one
 transaction from its first write to its commit, and its contract says which
 protocol step it is.
 */
module SessionStore {
  import opened Wrappers
  import opened SessionGate
  import opened SessionProtocol

  const SWEEP_LIMIT: nat := 100

  /** What a client may send, as far as the gate looks at it. */
  datatype ClientEvent = Message | Answer | Interrupt

  /** What comes of a batch. */
  datatype Outcome = MixedInterrupt | AlreadyOver | Stopping(stopped: bool) | Busy | Accepted(copy: Copy)

  class Session {
    var status: Status
    var stopReason: StopReason
    var lease: Option<nat>
    var lockVersion: nat
    var lastEventSeq: nat
    var deleted: bool
    var log: seq<Entry>

    ghost function Value(): Store
      reads this
    {
      Store(Row(status, stopReason, lease, lockVersion, lastEventSeq, deleted), log)
    }

    constructor ()
      ensures Value() == START.store
    {
      status, stopReason, lease := Idle, NoReason, None;
      lockVersion, lastEventSeq, deleted, log := 0, 0, false, [];
    }

    /** What the object-relational layer holds once it has loaded the row. */
    method Load() returns (copy: Copy)
      ensures copy == CopyOf(Value().row)
    {
      copy := Copy(status, stopReason, lease, lockVersion);
    }

    method AppendEvent(kind: Kind, source: Source)
      modifies this`lastEventSeq, this`log
      ensures Value() == Append(old(Value()), kind, source)
    {
      lastEventSeq := lastEventSeq + 1;
      log := log + [Entry(lastEventSeq, kind, source)];
    }

    method ReleaseSession(copy: Copy, newStatus: Status, reason: StopReason)
      modifies this`status, this`stopReason, this`lease, this`lockVersion
      ensures Value() == old(Value()).(row := Release(old(Value()).row, copy, newStatus, reason))
    {
      if copy.status != newStatus {
        status := newStatus;
      }
      if copy.stopReason != reason {
        stopReason := reason;
      }
      if copy.lease != None {
        lease := None;
      }
      lockVersion := copy.lockVersion + 1;
    }

    /** The heartbeat's write. */
    method ExtendLease(now: nat)
      modifies this`lease
      ensures forall c: Config, w: nat ::
                c.store == old(Value()) && c.now == now && Enabled(c, BeatWrite(w)) ==>
                Value() == Next(c, BeatWrite(w)).store
      ensures Value() == old(Value()).(row := old(Value()).row.(lease := Some(now + LEASE_SECONDS)))
    {
      lease := Some(now + LEASE_SECONDS);
    }

    method ClaimSession(answering: bool, now: nat) returns (claimed: bool)
      modifies this`status, this`stopReason, this`lease
      ensures claimed == Claimable(old(Value()).row, answering, now)
      ensures old(status) == Idle && old(stopReason) == RequiresAction && !answering ==> !claimed
      ensures old(status) == Idle && !old(deleted) && (answering || old(stopReason) != RequiresAction) ==> claimed
      ensures old(status) == Running && old(lease).Some? && now < old(lease).value ==> !claimed
      ensures old(status) == Running && !old(deleted) && answering && (old(lease).None? || old(lease).value <= now) ==> claimed
      ensures old(status) == Terminated || old(deleted) ==> !claimed
      ensures claimed ==> status == Running && stopReason == NoReason && lease == Some(now + 120) && lockVersion == old(lockVersion)
      ensures !claimed ==> Value() == old(Value())
      ensures Value() == if claimed then old(Value()).(row := Claim(old(Value()).row, now)) else old(Value())
    {
      var lapsed := match lease case None => true case Some(at) => at <= now;
      claimed := !deleted
        && (status == Idle || (status == Running && lapsed))
        && (answering || stopReason != RequiresAction);
      if claimed {
        status, lease, stopReason := Running, Some(now + LEASE_SECONDS), NoReason;
      }
    }

    /** A batch is accepted whole, or refused with nothing written. What is kept
        for a failed dispatch is the copy refreshed after the claim. */
    method SendEvents(answering: bool, messages: nat, now: nat) returns (accepted: Option<Copy>)
      requires messages >= 1
      modifies this
      ensures accepted.Some? <==> Claimable(old(Value()).row, answering, now)
      ensures accepted.None? ==> Value() == old(Value())
      ensures accepted.Some? ==> forall c: Config :: c.store == old(Value()) && c.now == now ==>
                var d := Next(c, Send(answering, messages));
                && Value() == d.store
                && d.dispatches == c.dispatches + [Waiting(accepted.value)]
      ensures accepted.Some? ==>
                && log == old(log) + UserInputs(old(lastEventSeq) + 1, messages)
                && accepted == Some(Copy(Running, NoReason, Some(now + 120), old(lockVersion)))
                && CopyOf(Value().row) == accepted.value
    {
      var claimed := ClaimSession(answering, now);
      if !claimed {
        return None;
      }
      var copy := Load();
      ghost var before := Value();
      var i := 0;
      while i < messages
        invariant 0 <= i <= messages
        invariant AppendAll(Value(), Inputs(messages - i)) == AppendAll(before, Inputs(messages))
        invariant CopyOf(Value().row) == copy
      {
        assert Inputs(messages - i)[1..] == Inputs(messages - i - 1);
        AppendEvent(UserInput, User);
        i := i + 1;
      }
      InputsAppended(before, messages);
      accepted := Some(copy);
    }

    /** The whole of `send_events`, for a request that has loaded `copy`: an
        interrupt skips the gate, and goes alone or not at all; any other batch is
        taken for what its first event is. What is refused writes nothing. */
    method PostEvents(events: seq<ClientEvent>, copy: Copy, now: nat) returns (outcome: Outcome)
      requires events != []
      modifies this
      ensures Interrupt in events ==>
                outcome == (if |events| > 1 then MixedInterrupt
                            else if copy.status.Terminated? then AlreadyOver
                            else Stopping(Interrupts(copy)))
      ensures Interrupt !in events ==>
                (outcome.Busy? || outcome.Accepted?)
                && (outcome.Accepted? <==> Claimable(old(Value()).row, events[0].Answer?, now))
      ensures Interrupt !in events && old(status) == Idle && old(stopReason) == RequiresAction && !events[0].Answer? ==>
                outcome == Busy && Value() == old(Value())
      ensures Interrupt !in events && old(status) == Idle && !old(deleted)
              && (events[0].Answer? || old(stopReason) != RequiresAction) ==>
                outcome.Accepted?
      ensures Interrupt !in events && (old(status) == Terminated || old(deleted)
              || (old(status) == Running && old(lease).Some? && now < old(lease).value)) ==>
                outcome == Busy && Value() == old(Value())
      ensures outcome.Accepted? ==>
                && log == old(log) + UserInputs(old(lastEventSeq) + 1, |events|)
                && outcome.copy == Copy(Running, NoReason, Some(now + 120), old(lockVersion)) == CopyOf(Value().row)
      ensures outcome.MixedInterrupt? || outcome.AlreadyOver? || outcome.Busy? ==> Value() == old(Value())
      ensures outcome.Stopping? ==> forall c: Config, k: nat ::
                c.store == old(Value()) && Enabled(c, InterruptCommit(k)) && c.cancels[k].copy == copy ==>
                Value() == Next(c, InterruptCommit(k)).store
      ensures outcome.Accepted? ==> forall c: Config :: c.store == old(Value()) && c.now == now ==>
                var d := Next(c, Send(events[0].Answer?, |events|));
                Value() == d.store && d.dispatches == c.dispatches + [Waiting(outcome.copy)]
    {
      if Interrupt in events {
        if |events| > 1 {
          return MixedInterrupt;
        }
        if copy.status == Terminated {
          return AlreadyOver;
        }
        var stopped := CancelSession(copy);
        return Stopping(stopped);
      }
      var accepted := SendEvents(events[0].Answer?, |events|, now);
      outcome := if accepted.Some? then Accepted(accepted.value) else Busy;
    }

    /** Only the status is read again under the lock; the generation is the one
        of the claim. */
    method DispatchFailed(copy: Copy)
      modifies this
      ensures forall c: Config, k: nat ::
                c.store == old(Value()) && Enabled(c, DispatchFails(k)) && c.dispatches[k].copy == copy ==>
                Value() == Next(c, DispatchFails(k)).store
    {
      if status == Running {
        Ended(copy.(status := status), false, Idle, Failed);
      }
    }

    /** `_fail` and `_terminate`: say what went wrong, say it is over, release. */
    method Ended(copy: Copy, lostOutputs: bool, newStatus: Status, reason: StopReason)
      modifies this
      ensures var end := if newStatus.Terminated? then StatusTerminated else StatusIdle;
              var s := AppendAll(old(Value()), Outputs(lostOutputs) + [(SessionError, System), (end, System)]);
              Value() == s.(row := Release(s.row, copy, newStatus, reason))
    {
      ghost var before := Value();
      if lostOutputs {
        AppendEvent(SessionError, System);
      }
      AppendEvent(SessionError, System);
      var end := if newStatus.Terminated? then StatusTerminated else StatusIdle;
      AppendEvent(end, System);
      EndedLog(before, lostOutputs, end);
      ReleaseSession(copy, newStatus, reason);
    }

    /** The interrupt acts on the copy its request loaded. */
    method CancelSession(copy: Copy) returns (stopped: bool)
      modifies this
      ensures stopped == Interrupts(copy)
      ensures forall c: Config, k: nat ::
                c.store == old(Value()) && Enabled(c, InterruptCommit(k)) && c.cancels[k].copy == copy ==>
                Value() == Next(c, InterruptCommit(k)).store
    {
      ghost var before := Value();
      AppendEvent(UserInterrupt, User);
      stopped := copy.status == Running || copy.stopReason == RequiresAction;
      assert AppendAll(before, [(UserInterrupt, User)]) == Value() by {
        assert [(UserInterrupt, User)][1..] == [];
      }
      if stopped {
        ReleaseSession(copy, Idle, Interrupted);
        AppendEvent(StatusIdle, System);
        var events := [(UserInterrupt, User), (StatusIdle, System)];
        assert events[1..] == [(StatusIdle, System)] && events[1..][1..] == [];
        assert AppendAll(before, events)
            == Append(Append(before, UserInterrupt, User), StatusIdle, System);
      }
    }

    /** The first half of an emit: the worker's copy is refreshed and compared. */
    method CheckGeneration(generation: nat) returns (current: bool)
      ensures forall c: Config, w: nat, idle: bool ::
                c.store == Value() && Enabled(c, Check(w, idle)) && c.workers[w].copy.lockVersion == generation ==>
                Next(c, Check(w, idle)).workers[w].pc == if current then Checked(idle) else Cancelled
    {
      current := lockVersion == generation && status == Running;
    }

    /** The second half: the write itself, which checks nothing. */
    method WriteAgentEvent(idle: bool)
      modifies this
      ensures forall c: Config, w: nat ::
                c.store == old(Value()) && Enabled(c, Write(w)) && c.workers[w].pc.idle == idle ==>
                Value() == Next(c, Write(w)).store
    {
      ghost var before := Value();
      var kind := if idle then StatusIdle else AgentOutput;
      AppendEvent(kind, Agent);
      assert [(kind, Agent)][1..] == [];
      assert AppendAll(before, [(kind, Agent)]) == Value();
    }

    /** How a worker's turn ends: normally, by an exception, or refused. */
    method FinishTurn(copy: Copy, reason: StopReason, lostOutputs: bool)
      modifies this
      ensures forall c: Config, w: nat ::
                c.store == old(Value()) && Enabled(c, Finish(w, reason, lostOutputs)) && c.workers[w].copy == copy ==>
                Value() == Next(c, Finish(w, reason, lostOutputs)).store
    {
      ghost var before := Value();
      if lostOutputs {
        AppendEvent(SessionError, System);
        assert [(SessionError, System)][1..] == [];
      }
      assert AppendAll(before, Outputs(lostOutputs)) == Value();
      ReleaseSession(copy, Idle, reason);
    }

    method FailTurn(copy: Copy, lostOutputs: bool)
      modifies this
      ensures forall c: Config, w: nat ::
                c.store == old(Value()) && Enabled(c, Fail(w, lostOutputs)) && c.workers[w].copy == copy ==>
                Value() == Next(c, Fail(w, lostOutputs)).store
    {
      Ended(copy, lostOutputs, Idle, Failed);
    }

    method RefuseTurn(copy: Copy)
      modifies this
      ensures forall c: Config, w: nat ::
                c.store == old(Value()) && Enabled(c, Refuse(w)) && c.workers[w].copy == copy ==>
                Value() == Next(c, Refuse(w)).store
    {
      Ended(copy, false, Terminated, Unusable);
      assert Outputs(false) + [(SessionError, System), (StatusTerminated, System)]
          == [(SessionError, System), (StatusTerminated, System)];
    }

    method SweepOne()
      modifies this
      ensures Value() == SweptStore(old(Value()))
    {
      var copy := Load();
      Ended(copy, false, Idle, Failed);
      assert Outputs(false) + [(SessionError, System), (StatusIdle, System)]
          == [(SessionError, System), (StatusIdle, System)];
    }
  }

  lemma EndedLog(s: Store, lostOutputs: bool, end: Kind)
    ensures AppendAll(s, Outputs(lostOutputs) + [(SessionError, System), (end, System)])
         == Append(Append(if lostOutputs then Append(s, SessionError, System) else s, SessionError, System), end, System)
  {
    var pair := [(SessionError, System), (end, System)];
    var t := if lostOutputs then Append(s, SessionError, System) else s;
    assert pair[1..] == [(end, System)] && pair[1..][1..] == [];
    var u := Append(t, SessionError, System);
    assert AppendAll(t, pair) == AppendAll(u, pair[1..]) == AppendAll(Append(u, end, System), []);
    LoggedTwice(s, Outputs(lostOutputs), pair);
    assert AppendAll(s, Outputs(lostOutputs)) == t by {
      assert Outputs(lostOutputs) != [] ==> Outputs(lostOutputs)[1..] == [];
    }
  }

  /** What a sweep leaves of a stranded session. */
  function SweptStore(s: Store): Store {
    var t := AppendAll(s, [(SessionError, System), (StatusIdle, System)]);
    t.(row := Release(t.row, CopyOf(s.row), Idle, Failed))
  }

  /** It is the protocol's sweep, and it frees the session: idle, unleased, one
      generation on, and open to the next message. */
  lemma SweptStoreIsSweep(c: Config)
    requires Enabled(c, Sweep)
    ensures SweptStore(c.store) == Next(c, Sweep).store
    ensures var row := SweptStore(c.store).row;
            && row.status.Idle? && row.lease.None? && row.lockVersion == c.store.row.lockVersion + 1
            && Claimable(row, false, c.now)
  {
  }

  ghost predicate Qualifies(s: Session, locked: set<Session>, now: nat)
    reads s
  {
    s !in locked && Stranded(s.Value().row, now)
  }

  /** `SELECT ... LIMIT 100 FOR UPDATE SKIP LOCKED`: the first qualifying rows of
      the table, which is ordered by when they last changed, leaving out those
      another sweeper holds. None is passed over for a later one. */
  method ListStuck(table: seq<Session>, locked: set<Session>, now: nat) returns (stuck: seq<Session>)
    requires forall i, j :: 0 <= i < j < |table| ==> table[i] != table[j]
    ensures |stuck| <= 100
    ensures forall s :: s in stuck ==>
              && s in table && s !in locked && s.status == Running && !s.deleted
              && (s.lease.None? || s.lease.value <= now)
    ensures forall i, j :: 0 <= i < j < |stuck| ==> stuck[i] != stuck[j]
    ensures forall i, j :: 0 <= i < j < |table| && Qualifies(table[i], locked, now) && table[j] in stuck ==> table[i] in stuck
    ensures |stuck| < 100 ==> forall s :: s in table && Qualifies(s, locked, now) ==> s in stuck
  {
    stuck := [];
    var n := 0;
    while n < |table| && |stuck| < SWEEP_LIMIT
      invariant 0 <= n <= |table| && |stuck| <= SWEEP_LIMIT
      invariant forall s :: s in stuck ==> s in table[..n] && Qualifies(s, locked, now)
      invariant forall i, j :: 0 <= i < j < |stuck| ==> stuck[i] != stuck[j]
      invariant forall i :: 0 <= i < n && Qualifies(table[i], locked, now) ==> table[i] in stuck
    {
      var s := table[n];
      assert s !in table[..n];
      assert s !in stuck;
      var lapsed := match s.lease case None => true case Some(at) => at <= now;
      if s !in locked && !s.deleted && s.status == Running && lapsed {
        stuck := stuck + [s];
      }
      assert table[..n + 1] == table[..n] + [s];
      n := n + 1;
    }
    forall j | n <= j < |table|
      ensures table[j] !in stuck
    {
      assert table[j] !in table[..n];
    }
  }

  /** One pass of the janitor: exactly the sessions it takes are swept, and with
      room to spare it takes every stranded one no other sweeper holds. */
  method SweepOnce(table: seq<Session>, locked: set<Session>, now: nat) returns (swept: nat, ghost stuck: seq<Session>)
    requires forall i, j :: 0 <= i < j < |table| ==> table[i] != table[j]
    modifies table
    ensures swept == |stuck| <= SWEEP_LIMIT
    ensures forall s :: s in stuck ==> s in table && old(Qualifies(s, locked, now))
    ensures forall s :: s in table ==>
              s.Value() == if s in stuck then SweptStore(old(s.Value())) else old(s.Value())
    ensures swept < SWEEP_LIMIT ==> forall s :: s in table && old(Qualifies(s, locked, now)) ==> s in stuck
  {
    var taken := ListStuck(table, locked, now);
    stuck := taken;
    var n := 0;
    while n < |taken|
      invariant 0 <= n <= |taken|
      invariant forall s :: s in table ==>
                  s.Value() == if s in taken[..n] then SweptStore(old(s.Value())) else old(s.Value())
    {
      var s := taken[n];
      assert s in taken && s in table;
      assert s !in taken[..n];
      s.SweepOne();
      assert taken[..n + 1] == taken[..n] + [s];
      n := n + 1;
    }
    assert taken[..n] == taken;
    swept := |taken|;
  }
}
