/**
 What the history of a run counts. Nothing in the system records it; the bounds
 of the protocol are stated in its terms, so here is what each number is.
 */
module SessionHistory {
  import opened Wrappers
  import opened SessionProtocol

  // --- releases ---------------------------------------------------------------------

  /** The copy that a step releases the row from, if it releases it. */
  function ReleasedFrom(c: Config, step: Step): Option<Copy>
    requires Enabled(c, step)
  {
    match step
    case Refuse(w) => Some(c.workers[w].copy)
    case Finish(w, _, _) => Some(c.workers[w].copy)
    case Fail(w, _) => Some(c.workers[w].copy)
    case Sweep => Some(CopyOf(c.store.row))
    case InterruptCommit(k) =>
      var copy := c.cancels[k].copy;
      if copy.status == Running || copy.stopReason == RequiresAction then Some(copy) else None
    case DispatchFails(k) => if c.store.row.status == Running then Some(c.dispatches[k].copy) else None
    case _ => None
  }

  function OneIf(b: bool): nat {
    if b then 1 else 0
  }

  /** The generation moves with a release and with nothing else, to one past that of
      the copy; and the release is counted, as stale if the row is on another. */
  lemma GenerationStep(c: Config, step: Step)
    requires Enabled(c, step)
    ensures var copy, past, next := ReleasedFrom(c, step), c.past, Next(c, step).past;
            && Next(c, step).store.row.lockVersion
               == (if copy.Some? then copy.value.lockVersion + 1 else c.store.row.lockVersion)
            && next.releases == past.releases + OneIf(copy.Some?)
            && next.stale == past.stale + OneIf(copy.Some? && copy.value.lockVersion != c.store.row.lockVersion)
  {
  }

  /** Claims are counted by the generation they find, and as takeovers if they find
      the row running; sweeps are counted as such. */
  lemma ClaimStep(c: Config, step: Step)
    requires Enabled(c, step)
    ensures var past, next := c.past, Next(c, step).past;
            && next.claims == past.claims + (if step.Send? then multiset{c.store.row.lockVersion} else multiset{})
            && next.takeovers == past.takeovers + OneIf(step.Send? && c.store.row.status == Running)
            && next.sweeps == past.sweeps + OneIf(step.Sweep?)
            && next.claimedAt == (if step.Send? then c.now else past.claimedAt)
            && next.leaseWrite == (if step.Send? || step.BeatWrite? then c.now else past.leaseWrite)
  {
  }

  // --- writes and departures ------------------------------------------------------------

  /** What the worker has on its count after a step. */
  ghost predicate Counts(c: Config, step: Step, w: nat)
    requires Enabled(c, step) && w < |c.workers|
  {
    var d, worker := Next(c, step), c.workers[w];
    var own := worker.copy.lockVersion;
    && w < |d.workers|
    && d.workers[w].departures
       == worker.departures + OneIf(c.store.row.lockVersion == own && d.store.row.lockVersion != own)
    && d.workers[w].staleWrites
       == worker.staleWrites + OneIf(step == Write(w) && c.store.row.lockVersion != own)
  }

  lemma EndCounts(c: Config, v: nat, events: seq<(Kind, Source)>, status: Status, reason: StopReason, w: nat)
    requires v < |c.workers| && w < |c.workers|
    ensures var d := Released(Logged(Moved(c, v, c.workers[v].(pc := Done)), events), c.workers[v].copy, status, reason);
            var own := c.workers[w].copy.lockVersion;
            && |d.workers| == |c.workers| && d.workers[w].staleWrites == c.workers[w].staleWrites
            && d.workers[w].departures
               == c.workers[w].departures + OneIf(c.store.row.lockVersion == own && d.store.row.lockVersion != own)
  {
  }

  lemma WorkersRelease(c: Config, step: Step, w: nat)
    requires Enabled(c, step) && w < |c.workers| && (step.Refuse? || step.Finish? || step.Fail?)
    ensures Counts(c, step, w)
  {
    match step {
      case Refuse(v) => EndCounts(c, v, [(SessionError, System), (StatusTerminated, System)], Terminated, Unusable, w);
      case Finish(v, reason, lost) => EndCounts(c, v, Outputs(lost), Idle, reason, w);
      case Fail(v, lost) => EndCounts(c, v, Outputs(lost) + [(SessionError, System), (StatusIdle, System)], Idle, Failed, w);
    }
  }

  lemma RequestsRelease(c: Config, step: Step, w: nat)
    requires Enabled(c, step) && w < |c.workers| && (step.DispatchFails? || step.InterruptCommit? || step.Sweep?)
    ensures Counts(c, step, w)
  {
  }

  lemma NothingReleased(c: Config, step: Step, w: nat)
    requires Enabled(c, step) && w < |c.workers|
    requires !step.Refuse? && !step.Finish? && !step.Fail? && !step.DispatchFails? && !step.InterruptCommit? && !step.Sweep?
    ensures Counts(c, step, w)
  {
  }

  /** A worker's generation is departed from when the row was on it and is not any
      more; and what it writes while the row is elsewhere is astray. */
  lemma WorkerCounts(c: Config, step: Step, w: nat)
    requires Enabled(c, step) && w < |c.workers|
    ensures w < |Next(c, step).workers|
    ensures var own := c.workers[w].copy.lockVersion;
            Next(c, step).workers[w].departures
            == c.workers[w].departures + OneIf(c.store.row.lockVersion == own && Next(c, step).store.row.lockVersion != own)
    ensures Next(c, step).workers[w].staleWrites
         == c.workers[w].staleWrites + OneIf(step == Write(w) && c.store.row.lockVersion != c.workers[w].copy.lockVersion)
  {
    if step.Refuse? || step.Finish? || step.Fail? {
      WorkersRelease(c, step, w);
    } else if step.DispatchFails? || step.InterruptCommit? || step.Sweep? {
      RequestsRelease(c, step, w);
    } else {
      NothingReleased(c, step, w);
    }
  }

  /** The generation behind each event that a worker writes is noted, in order. */
  lemma WriteStep(c: Config, step: Step)
    requires Enabled(c, step)
    ensures Next(c, step).past.written
         == c.past.written + (if step.Write? then [c.workers[step.worker].copy.lockVersion] else [])
  {
  }

  // --- announcements ------------------------------------------------------------------

  /** The entries of a log that say a turn is over. */
  function Closing(log: seq<Entry>): set<nat> {
    set i: nat | i < |log| && (log[i].kind == StatusIdle || log[i].kind == StatusTerminated)
  }

  lemma ClosingOneMore(log: seq<Entry>)
    requires log != []
    ensures var n := |log| - 1; |Closing(log)| == |Closing(log[..n])| + OneIf(Announcement(log[n]))
  {
    var n := |log| - 1;
    var before := Closing(log[..n]);
    assert n !in before;
    assert forall i: nat :: i < n ==> log[..n][i] == log[i];
    if Announcement(log[n]) {
      assert Closing(log) == before + {n};
    } else {
      assert Closing(log) == before;
    }
  }

  lemma {:induction false} AnnouncementsCounted(log: seq<Entry>)
    ensures Announcements(log) == |Closing(log)|
  {
    if log == [] {
      assert Closing(log) == {};
    } else {
      var n := |log| - 1;
      AnnouncementsCounted(log[..n]);
      ClosingOneMore(log);
    }
  }
}
