/**
 The lease of a running Session, in time. A worker's heartbeat sleeps, reads the
 row, and writes the lease; what it can be late by is how long the turn took to
 start after the claim, until its first beat, and how long past its sleep it is.
 */
module SessionLease {
  import opened Wrappers
  import opened SessionProtocol
  import opened SessionRuns

  /** What the lease leaves over the heartbeat's sleep. */
  const DELAY_SECONDS: nat := LEASE_SECONDS - HEARTBEAT_SECONDS

  /** From the start of its heartbeat to the end of its turn. */
  predicate Lives(w: Worker) {
    w.pc.Working? || w.pc.Checked? || w.pc.Announced?
  }

  function Overdue(now: nat, due: nat): nat {
    if now > due then now - due else 0
  }

  /** How late the worker is, its late start included until its first beat. */
  function Delay(c: Config, w: Worker): nat {
    w.lag + Overdue(c.now, w.since + HEARTBEAT_SECONDS)
  }

  predicate OnTime(c: Config, w: Worker) {
    Lives(w) && Delay(c, w) < DELAY_SECONDS
  }

  /** While the Session runs, its turn is about to start or a worker that lives
      is on time. */
  ghost predicate Tended(c: Config) {
    c.store.row.status.Running? ==>
      c.now < c.past.claimedAt + DELAY_SECONDS || exists i :: 0 <= i < |c.workers| && OnTime(c, c.workers[i])
  }

  ghost predicate TendedRun(c: Config, steps: seq<Step>)
    requires Runs(c, steps)
    decreases |steps|
  {
    Tended(c) && (steps != [] ==> TendedRun(Next(c, steps[0]), steps[1..]))
  }

  // --- a live worker holds the lease ----------------------------------------------

  /** While a worker lives and is on time, the lease of the row has not lapsed. */
  lemma OnTimeHoldsLease(c: Config, w: nat)
    requires Inv(c, 0) && w < |c.workers| && Lives(c.workers[w])
    requires c.workers[w].lag + (if c.now > c.workers[w].since + 45 then c.now - (c.workers[w].since + 45) else 0) < 75
    ensures c.store.row.lease.Some? ==> !LeaseLapsed(c.store.row, c.now)
  {
    assert Accounted(c, c.workers[w]);
  }

  /** And no more lateness could be allowed: a worker that alone has kept the
      lease is on time if and only if it has not lapsed. */
  lemma OnTimeIsExact(c: Config, w: nat)
    requires Inv(c, 0) && w < |c.workers| && Lives(c.workers[w]) && c.store.row.lease.Some?
    requires c.workers[w].since == c.past.leaseWrite + c.workers[w].lag
    requires c.now >= c.workers[w].since + HEARTBEAT_SECONDS
    ensures OnTime(c, c.workers[w]) <==> !LeaseLapsed(c.store.row, c.now)
  {
  }

  /** What takes the lease from a row and leaves it running: a late unparking
      whose request read a lease, and nothing else. */
  lemma OnlyLateUnparkingWipes(c: Config, step: Step)
    requires CopiesLoaded(c) && Enabled(c, step)
    ensures Next(c, step).past.wiped > c.past.wiped
       <==> LateUnparking(c, step) && c.cancels[step.request].copy.lease.Some?
            && c.store.row.status.Running? && c.store.row.lease.Some?
  {
  }

  lemma TendedIsLeased(c: Config)
    requires Inv(c, 0) && Tended(c) && c.past.wiped == 0
    ensures c.store.row.status.Running? ==> !LeaseLapsed(c.store.row, c.now)
  {
    if c.store.row.status.Running? && c.now >= c.past.claimedAt + DELAY_SECONDS {
      var i :| 0 <= i < |c.workers| && OnTime(c, c.workers[i]);
      OnTimeHoldsLease(c, i);
    }
  }

  lemma UnlapsedStep(c: Config, step: Step)
    requires Enabled(c, step) && (c.store.row.status.Running? ==> !LeaseLapsed(c.store.row, c.now))
    ensures Next(c, step).past.sweeps == c.past.sweeps && Next(c, step).past.takeovers == c.past.takeovers
  {
  }

  /** Nothing is swept and nothing is taken over in a run that is tended. */
  lemma {:induction false} PunctualLeaseHolds(c: Config, steps: seq<Step>)
    requires Inv(c, 0) && Runs(c, steps) && TendedRun(c, steps) && After(c, steps).past.wiped == 0
    ensures After(c, steps).past.sweeps == c.past.sweeps
    ensures After(c, steps).past.takeovers == c.past.takeovers
    decreases |steps|
  {
    if steps != [] {
      StaleOnlyGrows(c, steps);
      TendedIsLeased(c);
      UnlapsedStep(c, steps[0]);
      StepKeeps(c, steps[0]);
      PunctualLeaseHolds(Next(c, steps[0]), steps[1..]);
    }
  }

  /** So each generation is claimed at most once, and once more at most for each
      stale release; and the lease is never found lapsed. */
  lemma PunctualClaimsOnce(steps: seq<Step>)
    requires Runs(START, steps) && TendedRun(START, steps)
    requires After(START, steps).past.wiped == 0
    ensures var c := After(START, steps);
            && c.past.sweeps == 0 && c.past.takeovers == 0
            && (forall g :: c.past.claims[g] <= 1 + c.past.stale)
            && (c.store.row.status.Running? ==> !LeaseLapsed(c.store.row, c.now))
  {
    PunctualLeaseHolds(START, steps);
    GenerationsClaimedOnce(steps);
    Reachable(steps);
    TendedAtTheEnd(START, steps);
    TendedIsLeased(After(START, steps));
  }

  lemma {:induction false} TendedAtTheEnd(c: Config, steps: seq<Step>)
    requires Runs(c, steps) && TendedRun(c, steps)
    ensures Tended(After(c, steps))
    decreases |steps|
  {
    if steps != [] {
      TendedAtTheEnd(Next(c, steps[0]), steps[1..]);
    }
  }

  /** One worker that lives, and is on time, throughout. */
  predicate TendsThroughout(c: Config, steps: seq<Step>, w: nat)
    requires Runs(c, steps)
    decreases |steps|
  {
    && w < |c.workers| && OnTime(c, c.workers[w])
    && (steps != [] ==> TendsThroughout(Next(c, steps[0]), steps[1..], w))
  }

  /** Is enough. */
  lemma {:induction false} OneWorkerIsEnough(c: Config, steps: seq<Step>, w: nat)
    requires Runs(c, steps) && TendsThroughout(c, steps, w)
    ensures TendedRun(c, steps)
    decreases |steps|
  {
    if steps != [] {
      OneWorkerIsEnough(Next(c, steps[0]), steps[1..], w);
    }
  }

  // --- it can be done, and only just -------------------------------------------------

  lemma {:induction false} TendedOneMore(c: Config, steps: seq<Step>, step: Step)
    requires Runs(c, steps) && TendedRun(c, steps) && Runs(c, steps + [step])
    requires Tended(After(c, steps + [step]))
    ensures TendedRun(c, steps + [step])
    decreases |steps|
  {
    if steps == [] {
      assert [] + [step] == [step] && [step][1..] == [];
      assert After(Next(c, step), []) == Next(c, step);
    } else {
      assert (steps + [step])[1..] == steps[1..] + [step];
      TendedOneMore(Next(c, steps[0]), steps[1..], step);
    }
  }

  lemma TendedOn(steps: seq<Step>, step: Step) returns (longer: seq<Step>)
    requires Runs(START, steps) && TendedRun(START, steps) && Enabled(Watched(steps), step)
    requires Tended(Next(Watched(steps), step))
    ensures Runs(START, longer) && TendedRun(START, longer) && Watched(longer) == Next(Watched(steps), step)
  {
    longer := Taken(steps, step);
    TendedOneMore(START, steps, step);
  }

  /** A turn that has just beaten. */
  predicate Beaten(c: Config, now: nat) {
    && c.now == now && c.past.wiped == 0
    && c.store.row.status.Running? && c.store.row.stopReason.NoReason? && !c.store.row.deleted
    && c.store.row.lease == Some(now + LEASE_SECONDS) && c.past.leaseWrite == now
    && |c.workers| == 1 && Lives(c.workers[0]) && !c.workers[0].beating
    && c.workers[0].since == now && c.workers[0].lag == 0
  }

  lemma FirstBeat() returns (steps: seq<Step>)
    ensures Runs(START, steps) && TendedRun(START, steps) && Beaten(Watched(steps), 0)
  {
    steps := [];
    steps := TendedOn(steps, Send(false, 1));
    steps := TendedOn(steps, Deliver);
    steps := TendedOn(steps, Begin(0));
  }

  /** The beat is as late as it may be. */
  lemma NextBeat(sofar: seq<Step>, now: nat) returns (steps: seq<Step>)
    requires Runs(START, sofar) && TendedRun(START, sofar) && Beaten(Watched(sofar), now)
    ensures Runs(START, steps) && TendedRun(START, steps) && Beaten(Watched(steps), now + LEASE_SECONDS - 1)
  {
    assert OnTime(Watched(sofar), Watched(sofar).workers[0]);
    steps := TendedLater(sofar, HEARTBEAT_SECONDS);
    assert OnTime(Next(Watched(steps), BeatRead(0)), Next(Watched(steps), BeatRead(0)).workers[0]);
    steps := TendedOn(steps, BeatRead(0));
    steps := TendedLater(steps, DELAY_SECONDS - 1);
    assert OnTime(Next(Watched(steps), BeatWrite(0)), Next(Watched(steps), BeatWrite(0)).workers[0]);
    steps := TendedOn(steps, BeatWrite(0));
  }

  lemma TendedLater(sofar: seq<Step>, seconds: nat) returns (steps: seq<Step>)
    requires Runs(START, sofar) && TendedRun(START, sofar) && |Watched(sofar).workers| == 1
    requires OnTime(Watched(sofar).(now := Watched(sofar).now + seconds), Watched(sofar).workers[0])
    ensures Runs(START, steps) && TendedRun(START, steps)
    ensures Watched(steps) == Watched(sofar).(now := Watched(sofar).now + seconds)
  {
    var d := Next(Watched(sofar), Tick(seconds));
    assert OnTime(d, d.workers[0]);
    steps := TendedOn(sofar, Tick(seconds));
  }

  /** A turn of any length can be tended by one worker whose every beat is late
      by all but the last second allowed. */
  lemma {:induction false} LongTurnTended(beats: nat) returns (steps: seq<Step>)
    ensures Runs(START, steps) && TendedRun(START, steps)
    ensures Watched(steps).now == beats * (LEASE_SECONDS - 1) && Beaten(Watched(steps), beats * (LEASE_SECONDS - 1))
    decreases beats
  {
    if beats == 0 {
      steps := FirstBeat();
    } else {
      steps := LongTurnTended(beats - 1);
      steps := NextBeat(steps, (beats - 1) * (LEASE_SECONDS - 1));
    }
  }

  /** One second more, and a Session whose worker lives is there to be swept, or
      taken over. */
  lemma LateBeatLosesTheLease() returns (steps: seq<Step>)
    ensures Runs(START, steps)
    ensures var c := Watched(steps);
            && |c.workers| == 1 && Lives(c.workers[0]) && Delay(c, c.workers[0]) == 75
            && Stranded(c.store.row, c.now) && Claimable(c.store.row, false, c.now)
  {
    steps := FirstBeat();
    steps := Taken(steps, Tick(LEASE_SECONDS));
  }
}
