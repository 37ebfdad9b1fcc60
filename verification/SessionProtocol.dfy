/**
 The turn protocol of one Session row.

 Every database transaction that touches the row is one atomic step, because
 its first `UPDATE` takes the row lock and keeps it until the commit. What a
 transaction decided *before* it took that lock is not atomic with it: a caller
 works from the copy of the row it loaded earlier. The model keeps those copies
 explicit, so a release writes what the object-relational layer writes: the
 caller's `lock_version` plus one, and those other columns whose new value
 differs from the caller's copy.
 */
module SessionProtocol {
  import opened Wrappers

  const LEASE_SECONDS: nat := 120
  const HEARTBEAT_SECONDS: nat := 45

  datatype Status = Idle | Running | Terminated

  datatype StopReason = NoReason | EndTurn | RequiresAction | Interrupted | Failed | Unusable

  datatype Row = Row(
    status: Status,
    stopReason: StopReason,
    lease: Option<nat>,
    lockVersion: nat,
    lastEventSeq: nat,
    deleted: bool)

  datatype Kind =
    | UserInput | UserInterrupt
    | StatusRunning | AgentOutput
    | StatusIdle | StatusTerminated | SessionError

  datatype Source = User | Agent | System

  datatype Entry = Entry(seq_: nat, kind: Kind, source: Source)

  /** One Session row and its event log. */
  datatype Store = Store(row: Row, log: seq<Entry>)

  /** The columns a caller remembers from the last time it loaded the row. */
  datatype Copy = Copy(status: Status, stopReason: StopReason, lease: Option<nat>, lockVersion: nat)

  const NEW_ROW := Row(Idle, NoReason, None, 0, 0, false)

  // --- what one statement does to the store ---------------------------------

  function CopyOf(row: Row): Copy {
    Copy(row.status, row.stopReason, row.lease, row.lockVersion)
  }

  /** `UPDATE ... RETURNING` on the counter, then the insert. */
  function Append(s: Store, kind: Kind, source: Source): Store {
    var n := s.row.lastEventSeq + 1;
    Store(s.row.(lastEventSeq := n), s.log + [Entry(n, kind, source)])
  }

  function AppendAll(s: Store, events: seq<(Kind, Source)>): (t: Store)
    ensures t.row == s.row.(lastEventSeq := s.row.lastEventSeq + |events|)
    ensures s.log <= t.log
    decreases |events|
  {
    if events == [] then s
    else AppendAll(Append(s, events[0].0, events[0].1), events[1..])
  }

  /** The release as it is flushed: unchanged columns of the copy are not sent. */
  function Release(row: Row, copy: Copy, status: Status, reason: StopReason): Row {
    row.(
      status := if copy.status != status then status else row.status,
      stopReason := if copy.stopReason != reason then reason else row.stopReason,
      lease := if copy.lease != None then None else row.lease,
      lockVersion := copy.lockVersion + 1)
  }

  predicate LeaseLapsed(row: Row, now: nat) {
    row.lease.None? || row.lease.value <= now
  }

  /** The `WHERE` of the claim. */
  predicate Claimable(row: Row, answering: bool, now: nat) {
    && !row.deleted
    && (row.status.Idle? || (row.status.Running? && LeaseLapsed(row, now)))
    && (answering || !row.stopReason.RequiresAction?)
  }

  function Claim(row: Row, now: nat): Row {
    row.(status := Running, lease := Some(now + LEASE_SECONDS), stopReason := NoReason)
  }

  /** The `WHERE` of the sweep. */
  predicate Stranded(row: Row, now: nat) {
    !row.deleted && row.status.Running? && LeaseLapsed(row, now)
  }

  // --- the actors -----------------------------------------------------------

  /** Where a worker is in its turn. A worker between its generation check and
      the insert is `Checked`; one whose idle event is in the log but whose
      release is not is `Announced`. */
  datatype Pc = Loaded | Working | Checked(idle: bool) | Announced | Cancelled | Done

  /** A worker, the copy it captured its generation from, and what its history
      comes to: when its heartbeat last went to sleep, how long before that the
      lease was written for it, how often the row's generation moved away from
      its own, and how many of its events were written while it was elsewhere. */
  datatype Worker = Worker(
    pc: Pc, copy: Copy, beating: bool, since: nat, lag: nat, departures: nat, staleWrites: nat)

  /** A request that has read the row and has still to commit. */
  datatype Request = Waiting(copy: Copy) | Settled

  /** What has happened so far, none of which the system itself records. */
  datatype History = History(
    releases: nat,          // releases committed
    stale: nat,             // ... by a copy of an earlier generation
    torn: nat,              // ... by a copy of this generation but another status
    wiped: nat,             // ... that cleared the lease of a row they left running
    claims: multiset<nat>,  // the generation of the row at each claim
    takeovers: nat,         // claims of a running session whose lease had lapsed
    sweeps: nat,
    claimedAt: nat,         // when the row was last claimed
    leaseWrite: nat,        // when the lease was last written
    written: seq<nat>)      // the generation behind each event a worker wrote, in log order

  datatype Config = Config(
    store: Store,
    now: nat,
    workers: seq<Worker>,
    cancels: seq<Request>,
    dispatches: seq<Request>,
    past: History)

  const START := Config(Store(NEW_ROW, []), 0, [], [], [], History(0, 0, 0, 0, multiset{}, 0, 0, 0, 0, []))

  datatype Step =
    | Tick(seconds: nat)
    | Send(answering: bool, messages: nat)       // claim, append the batch, commit
    | DispatchFails(request: nat)
    | Deliver                                    // a worker loads the running row
    | Refuse(worker: nat)                        // no usable sandbox or version
    | Begin(worker: nat)
    | Check(worker: nat, idle: bool)             // emit, first half
    | Write(worker: nat)                         // emit, second half
    | Finish(worker: nat, reason: StopReason, lostOutputs: bool)
    | Fail(worker: nat, lostOutputs: bool)
    | Unwind(worker: nat, lostOutputs: bool)     // after a failed check
    | Crash(worker: nat)
    | BeatRead(worker: nat)
    | BeatWrite(worker: nat)
    | InterruptRead
    | InterruptCommit(request: nat)
    | Sweep
    | Delete

  predicate Enabled(c: Config, step: Step) {
    var row := c.store.row;
    match step
    case Tick(_) => true
    case Send(answering, messages) => messages >= 1 && Claimable(row, answering, c.now)
    case DispatchFails(k) => k < |c.dispatches| && c.dispatches[k].Waiting?
    case Deliver => row.status.Running?
    case Refuse(w) => w < |c.workers| && c.workers[w].pc.Loaded?
    case Begin(w) => w < |c.workers| && c.workers[w].pc.Loaded?
    case Check(w, _) => w < |c.workers| && c.workers[w].pc.Working?
    case Write(w) => w < |c.workers| && c.workers[w].pc.Checked?
    case Finish(w, reason, _) =>
      w < |c.workers| && c.workers[w].pc.Announced? && (reason.EndTurn? || reason.RequiresAction?)
    case Fail(w, _) =>
      w < |c.workers| && (c.workers[w].pc.Working? || c.workers[w].pc.Checked? || c.workers[w].pc.Announced?)
    case Unwind(w, _) => w < |c.workers| && c.workers[w].pc.Cancelled?
    case Crash(w) => w < |c.workers|
    case BeatRead(w) =>
      && w < |c.workers|
      && (c.workers[w].pc.Working? || c.workers[w].pc.Checked? || c.workers[w].pc.Announced?)
      && row.status.Running? && c.now >= c.workers[w].since + HEARTBEAT_SECONDS
    case BeatWrite(w) => w < |c.workers| && c.workers[w].beating
    case InterruptRead => !row.deleted && !row.status.Terminated?
    case InterruptCommit(k) => k < |c.cancels| && c.cancels[k].Waiting?
    case Sweep => Stranded(row, c.now)
    case Delete => true
  }

  // --- the three ways a step changes a configuration ------------------------

  function Logged(c: Config, events: seq<(Kind, Source)>): Config {
    c.(store := AppendAll(c.store, events))
  }

  function Departed(workers: seq<Worker>, before: nat, after: nat): seq<Worker> {
    seq(|workers|, i requires 0 <= i < |workers| =>
      if workers[i].copy.lockVersion == before != after
      then workers[i].(departures := workers[i].departures + 1)
      else workers[i])
  }

  function Released(c: Config, copy: Copy, status: Status, reason: StopReason): Config {
    var row := c.store.row;
    var freed := Release(row, copy, status, reason);
    var stale := copy.lockVersion != row.lockVersion;
    var torn := !stale && copy.status != row.status;
    var wiped := freed.status.Running? && freed.lease.None? && row.lease.Some?;
    c.(store := c.store.(row := freed),
       workers := Departed(c.workers, row.lockVersion, copy.lockVersion + 1),
       past := c.past.(
         releases := c.past.releases + 1,
         stale := c.past.stale + if stale then 1 else 0,
         torn := c.past.torn + if torn then 1 else 0,
         wiped := c.past.wiped + if wiped then 1 else 0))
  }

  function Moved(c: Config, w: nat, worker: Worker): Config
    requires w < |c.workers|
  {
    c.(workers := c.workers[w := worker])
  }

  function Outputs(lost: bool): seq<(Kind, Source)> {
    if lost then [(SessionError, System)] else []
  }

  /** What an interrupt commits, from the copy its request loaded. */
  predicate Interrupts(copy: Copy) {
    copy.status.Running? || copy.stopReason.RequiresAction?
  }

  function Next(c: Config, step: Step): Config
    requires Enabled(c, step)
  {
    var row := c.store.row;
    match step
    case Tick(seconds) => c.(now := c.now + seconds)
    case Send(_, messages) => Sent(c, messages)
    case DispatchFails(k) =>
      var settled := c.(dispatches := c.dispatches[k := Settled]);
      // Only the status and the counter are read again under the lock.
      if row.status.Running?
      then Released(Logged(settled, [(SessionError, System), (StatusIdle, System)]),
                    c.dispatches[k].copy.(status := row.status), Idle, Failed)
      else settled
    case Deliver => c.(workers := c.workers + [Worker(Loaded, CopyOf(row), false, 0, 0, 0, 0)])
    case Refuse(w) =>
      Released(Logged(Moved(c, w, c.workers[w].(pc := Done)), [(SessionError, System), (StatusTerminated, System)]),
               c.workers[w].copy, Terminated, Unusable)
    case Begin(w) => Moved(c, w, c.workers[w].(pc := Working, since := c.now, lag := SinceClaim(c)))
    case Check(w, idle) =>
      var current := row.lockVersion == c.workers[w].copy.lockVersion && row.status.Running?;
      Moved(c, w, c.workers[w].(pc := if current then Checked(idle) else Cancelled))
    case Write(w) => Written(c, w)
    case Finish(w, reason, lost) =>
      Released(Logged(Moved(c, w, c.workers[w].(pc := Done)), Outputs(lost)), c.workers[w].copy, Idle, reason)
    case Fail(w, lost) =>
      Released(Logged(Moved(c, w, c.workers[w].(pc := Done)), Outputs(lost) + [(SessionError, System), (StatusIdle, System)]),
               c.workers[w].copy, Idle, Failed)
    case Unwind(w, lost) => Logged(Moved(c, w, c.workers[w].(pc := Done)), Outputs(lost))
    case Crash(w) => Moved(c, w, c.workers[w].(pc := Done))
    case BeatRead(w) => Moved(c, w, c.workers[w].(beating := true))
    case BeatWrite(w) =>
      Leased(Moved(c, w, c.workers[w].(beating := false, since := c.now, lag := 0)), row.(lease := Some(c.now + LEASE_SECONDS)))
    case InterruptRead => c.(cancels := c.cancels + [Waiting(CopyOf(row))])
    case InterruptCommit(k) =>
      var copy := c.cancels[k].copy;
      var settled := c.(cancels := c.cancels[k := Settled]);
      if Interrupts(copy)
      then Released(Logged(settled, [(UserInterrupt, User), (StatusIdle, System)]), copy, Idle, Interrupted)
      else Logged(settled, [(UserInterrupt, User)])
    case Sweep =>
      Released(Logged(c.(past := c.past.(sweeps := c.past.sweeps + 1)), [(SessionError, System), (StatusIdle, System)]),
               CopyOf(row), Idle, Failed)
    case Delete => c.(store := c.store.(row := row.(deleted := true)))
  }

  function SinceClaim(c: Config): nat {
    if c.now >= c.past.claimedAt then c.now - c.past.claimedAt else 0
  }

  function Leased(c: Config, row: Row): Config {
    c.(store := c.store.(row := row), past := c.past.(leaseWrite := c.now))
  }

  function Inputs(n: nat): seq<(Kind, Source)> {
    seq(n, _ => (UserInput, User))
  }

  function Sent(c: Config, messages: nat): Config {
    var row := c.store.row;
    var claimed := Leased(c, Claim(row, c.now));
    var d := Logged(claimed, Inputs(messages));
    d.(dispatches := d.dispatches + [Waiting(CopyOf(d.store.row))],
       past := d.past.(
         claims := d.past.claims + multiset{row.lockVersion},
         claimedAt := c.now,
         takeovers := d.past.takeovers + if row.status.Running? then 1 else 0))
  }

  /** What a worker is after its write. */
  function Wrote(c: Config, worker: Worker): Worker
    requires worker.pc.Checked?
  {
    var astray := worker.copy.lockVersion != c.store.row.lockVersion;
    worker.(pc := if worker.pc.idle then Announced else Working,
            staleWrites := worker.staleWrites + if astray then 1 else 0)
  }

  function Noted(c: Config, generation: nat): Config {
    c.(past := c.past.(written := c.past.written + [generation]))
  }

  function Written(c: Config, w: nat): Config
    requires w < |c.workers| && c.workers[w].pc.Checked?
  {
    var worker := c.workers[w];
    var event := (if worker.pc.idle then StatusIdle else AgentOutput, Agent);
    Moved(Noted(Logged(c, [event]), worker.copy.lockVersion), w, Wrote(c, worker))
  }

  // --- runs -----------------------------------------------------------------

  predicate Runs(c: Config, steps: seq<Step>)
    decreases |steps|
  {
    steps == [] || (Enabled(c, steps[0]) && Runs(Next(c, steps[0]), steps[1..]))
  }

  function After(c: Config, steps: seq<Step>): Config
    requires Runs(c, steps)
    decreases |steps|
  {
    if steps == [] then c else After(Next(c, steps[0]), steps[1..])
  }

  // --- what holds in every reachable configuration --------------------------

  predicate Announcement(e: Entry) {
    e.kind.StatusIdle? || e.kind.StatusTerminated?
  }

  /** How many turn ends the log announces. */
  function Announcements(log: seq<Entry>): nat {
    if log == [] then 0
    else Announcements(log[..|log| - 1]) + if Announcement(log[|log| - 1]) then 1 else 0
  }

  /** Workers whose idle event is out and whose release is not. */
  function Announcing(workers: seq<Worker>): nat {
    if workers == [] then 0
    else Announcing(workers[..|workers| - 1]) + if workers[|workers| - 1].pc.Announced? then 1 else 0
  }

  ghost predicate Numbered(s: Store) {
    && |s.log| == s.row.lastEventSeq
    && forall i :: 0 <= i < |s.log| ==> s.log[i].seq_ == i + 1
  }

  /** No copy is ahead of the releases that have happened, and one that is level
      with them was loaded from the row as it still is. */
  predicate Plausible(c: Config, copy: Copy) {
    && copy.lockVersion <= c.past.releases
    && (copy.lockVersion == c.past.releases ==> c.store.row.lockVersion == c.past.releases)
    // A terminated row has no copy of its own generation, unless a stale
    // release has already put the generation back.
    && (c.store.row.status.Terminated? && c.past.stale == 0 ==> copy.lockVersion < c.past.releases)
  }

  ghost predicate CopiesPlausible(c: Config) {
    && (forall i :: 0 <= i < |c.workers| ==> Plausible(c, c.workers[i].copy))
    && (forall i :: 0 <= i < |c.cancels| ==> c.cancels[i].Waiting? ==> Plausible(c, c.cancels[i].copy))
    && (forall i :: 0 <= i < |c.dispatches| ==> c.dispatches[i].Waiting? ==> Plausible(c, c.dispatches[i].copy))
  }

  ghost predicate Counted(c: Config) {
    && c.store.row.lockVersion <= c.past.releases
    && (c.store.row.lockVersion == c.past.releases <==> c.past.stale == 0)
  }

  /** Astray writes are paid for by departures, departures by stale releases,
      but for the last; and the worker's clock is not ahead of the lease's. */
  predicate Accounted(c: Config, w: Worker) {
    && w.staleWrites
       + (if w.pc.Checked? && w.copy.lockVersion != c.store.row.lockVersion then 1 else 0) <= w.departures
    && w.departures <= c.past.stale + (if w.copy.lockVersion < c.store.row.lockVersion then 1 else 0)
    && w.since <= c.past.leaseWrite + w.lag
  }

  ghost predicate AllAccounted(c: Config) {
    forall i :: 0 <= i < |c.workers| ==> Accounted(c, c.workers[i])
  }

  /** A generation before the row's, or the row's while it is running. */
  predicate Begun(row: Row, g: nat) {
    g < row.lockVersion || (g == row.lockVersion && row.status.Running?)
  }

  /** A generation that has begun may have been claimed once; more claims of it
      are takeovers or follow stale releases. */
  ghost predicate ClaimsOrdered(c: Config) {
    && (forall g :: c.past.claims[g] <= c.past.takeovers + c.past.stale + if Begun(c.store.row, g) then 1 else 0)
    && (c.past.torn == 0 && c.past.stale == 0 ==>
          && (c.store.row.status.Running? ==> c.store.row.lockVersion in c.past.claims)
          && (c.past.takeovers > 0 ==> exists g :: c.past.claims[g] > 1))
  }

  ghost predicate LeaseDated(c: Config) {
    && (c.store.row.lease.Some? ==> c.store.row.lease.value == c.past.leaseWrite + LEASE_SECONDS)
    && (c.past.wiped == 0 && c.store.row.status.Running? ==> c.store.row.lease.Some?)
    && c.past.wiped <= c.past.stale + c.past.torn
    && c.past.claimedAt <= c.past.leaseWrite <= c.now
  }

  /** The invariant, with `spare` announcements beyond those already owed. A
      transaction that announces and releases passes through spare 1. */
  ghost predicate Inv(c: Config, spare: int) {
    && Numbered(c.store)
    && Announcements(c.store.log) >= c.past.releases + Announcing(c.workers) + spare
    && Counted(c)
    && CopiesPlausible(c)
    && AllAccounted(c)
    && ClaimsOrdered(c)
    && LeaseDated(c)
  }

  // --- the pieces keep it ---------------------------------------------------

  function Announces(events: seq<(Kind, Source)>): nat {
    if events == [] then 0
    else (if events[0].0.StatusIdle? || events[0].0.StatusTerminated? then 1 else 0) + Announces(events[1..])
  }

  lemma {:induction false} AppendAllFacts(s: Store, events: seq<(Kind, Source)>)
    requires Numbered(s)
    ensures var t := AppendAll(s, events);
            && Numbered(t)
            && Announcements(t.log) == Announcements(s.log) + Announces(events)
    decreases |events|
  {
    if events != [] {
      var s' := Append(s, events[0].0, events[0].1);
      assert s'.log[..|s'.log| - 1] == s.log;
      AppendAllFacts(s', events[1..]);
    }
  }

  lemma LoggedKeeps(c: Config, events: seq<(Kind, Source)>, spare: int)
    requires Inv(c, spare)
    ensures Inv(Logged(c, events), spare + Announces(events))
  {
    AppendAllFacts(c.store, events);
    var d := Logged(c, events);
    assert forall copy :: Plausible(c, copy) ==> Plausible(d, copy);
    assert forall w :: Accounted(c, w) ==> Accounted(d, w);
  }

  lemma {:induction false} AnnouncingMove(workers: seq<Worker>, i: nat, w: Worker)
    requires i < |workers|
    ensures Announcing(workers[i := w])
         == Announcing(workers) + (if w.pc.Announced? then 1 else 0) - (if workers[i].pc.Announced? then 1 else 0)
  {
    var n := |workers| - 1;
    if i == n {
      assert workers[i := w][..n] == workers[..n];
    } else {
      AnnouncingMove(workers[..n], i, w);
      assert workers[i := w][..n] == workers[..n][i := w];
    }
  }

  lemma {:induction false} AnnouncingDeparted(workers: seq<Worker>, before: nat, after: nat)
    ensures Announcing(Departed(workers, before, after)) == Announcing(workers)
  {
    if workers != [] {
      var n := |workers| - 1;
      AnnouncingDeparted(workers[..n], before, after);
      assert Departed(workers, before, after)[..n] == Departed(workers[..n], before, after);
    }
  }

  lemma MovedKeeps(c: Config, i: nat, w: Worker, spare: int)
    requires Inv(c, spare) && i < |c.workers|
    requires w.copy == c.workers[i].copy && Accounted(c, w)
    ensures Inv(Moved(c, i, w),
                spare + (if c.workers[i].pc.Announced? then 1 else 0) - (if w.pc.Announced? then 1 else 0))
  {
    AnnouncingMove(c.workers, i, w);
    var d := Moved(c, i, w);
    assert forall copy :: Plausible(c, copy) ==> Plausible(d, copy);
    assert forall x :: Accounted(c, x) ==> Accounted(d, x);
  }

  lemma ReleasedKeepsCopies(c: Config, copy: Copy, status: Status, reason: StopReason, spare: int)
    requires Inv(c, spare) && Plausible(c, copy) && !status.Running?
    ensures CopiesPlausible(Released(c, copy, status, reason)) && Counted(Released(c, copy, status, reason))
  {
    var d := Released(c, copy, status, reason);
    assert forall k :: Plausible(c, k) ==> Plausible(d, k);
  }

  lemma ReleasedKeepsFence(c: Config, copy: Copy, status: Status, reason: StopReason, spare: int)
    requires Inv(c, spare) && Plausible(c, copy) && !status.Running?
    ensures AllAccounted(Released(c, copy, status, reason))
  {
    var d := Released(c, copy, status, reason);
    forall i | 0 <= i < |d.workers|
      ensures Accounted(d, d.workers[i])
    {
      assert Accounted(c, c.workers[i]) && Plausible(c, c.workers[i].copy);
    }
  }

  lemma ReleasedKeeps(c: Config, copy: Copy, status: Status, reason: StopReason, spare: int)
    requires Inv(c, spare) && Plausible(c, copy) && !status.Running?
    ensures Inv(Released(c, copy, status, reason), spare - 1)
  {
    AnnouncingDeparted(c.workers, c.store.row.lockVersion, copy.lockVersion + 1);
    ReleasedKeepsCopies(c, copy, status, reason, spare);
    ReleasedKeepsFence(c, copy, status, reason, spare);
  }

  // --- every step keeps it ---------------------------------------------------

  lemma WeakerSpare(c: Config, spare: int, less: int)
    requires Inv(c, spare) && less <= spare
    ensures Inv(c, less)
  {
  }

  function DoneWith(c: Config, w: nat): Config
    requires w < |c.workers|
  {
    Moved(c, w, c.workers[w].(pc := Done))
  }

  lemma DoneKeeps(c: Config, w: nat, lost: bool)
    requires Inv(c, 0) && w < |c.workers|
    ensures Inv(Logged(DoneWith(c, w), Outputs(lost)), if c.workers[w].pc.Announced? then 1 else 0)
    ensures Plausible(Logged(DoneWith(c, w), Outputs(lost)), c.workers[w].copy)
  {
    var owed := if c.workers[w].pc.Announced? then 1 else 0;
    var done := c.workers[w].(pc := Done);
    assert Accounted(c, c.workers[w]) && Accounted(c, done);
    MovedKeeps(c, w, done, 0);
    LoggedKeeps(DoneWith(c, w), Outputs(lost), owed);
    var d := Logged(DoneWith(c, w), Outputs(lost));
    assert d.workers[w].copy == c.workers[w].copy;
  }

  /** An announcement and a release in one transaction owe nothing. */
  lemma EndedKeeps(c: Config, copy: Copy, first: (Kind, Source), last: (Kind, Source), status: Status, reason: StopReason)
    requires Inv(c, 0) && Plausible(c, copy) && !status.Running?
    requires !first.0.StatusIdle? && !first.0.StatusTerminated? && (last.0.StatusIdle? || last.0.StatusTerminated?)
    ensures Inv(Released(Logged(c, [first, last]), copy, status, reason), 0)
  {
    assert [first, last][1..] == [last] && [last][1..] == [];
    assert Announces([last]) == 1;
    LoggedKeeps(c, [first, last], 0);
    ReleasedKeeps(Logged(c, [first, last]), copy, status, reason, 1);
  }

  lemma {:induction false} LoggedTwice(s: Store, a: seq<(Kind, Source)>, b: seq<(Kind, Source)>)
    ensures AppendAll(AppendAll(s, a), b) == AppendAll(s, a + b)
    decreases |a|
  {
    if a == [] {
      assert a + b == b;
    } else {
      assert (a + b)[1..] == a[1..] + b;
      LoggedTwice(Append(s, a[0].0, a[0].1), a[1..], b);
    }
  }

  lemma RefuseKeeps(c: Config, w: nat)
    requires Inv(c, 0) && Enabled(c, Refuse(w))
    ensures Inv(Next(c, Refuse(w)), 0)
  {
    DoneKeeps(c, w, false);
    assert Logged(DoneWith(c, w), Outputs(false)) == DoneWith(c, w);
    EndedKeeps(DoneWith(c, w), c.workers[w].copy, (SessionError, System), (StatusTerminated, System), Terminated, Unusable);
  }

  lemma FailKeeps(c: Config, w: nat, lost: bool)
    requires Inv(c, 0) && Enabled(c, Fail(w, lost))
    ensures Inv(Next(c, Fail(w, lost)), 0)
  {
    DoneKeeps(c, w, lost);
    var d := Logged(DoneWith(c, w), Outputs(lost));
    WeakerSpare(d, if c.workers[w].pc.Announced? then 1 else 0, 0);
    EndedKeeps(d, c.workers[w].copy, (SessionError, System), (StatusIdle, System), Idle, Failed);
    LoggedTwice(c.store, Outputs(lost), [(SessionError, System), (StatusIdle, System)]);
  }

  lemma FinishKeeps(c: Config, w: nat, reason: StopReason, lost: bool)
    requires Inv(c, 0) && Enabled(c, Finish(w, reason, lost))
    ensures Inv(Next(c, Finish(w, reason, lost)), 0)
  {
    DoneKeeps(c, w, lost);
    ReleasedKeeps(Logged(DoneWith(c, w), Outputs(lost)), c.workers[w].copy, Idle, reason, 1);
  }

  lemma MoveStepKeeps(c: Config, step: Step)
    requires Inv(c, 0) && Enabled(c, step)
    requires step.Begin? || step.Crash? || step.BeatRead?
    ensures Inv(Next(c, step), 0)
  {
    var w := step.worker;
    var worker := c.workers[w];
    assert Accounted(c, worker);
    var pc := if step.Begin? then Working else if step.Crash? then Done else worker.pc;
    var moved := if step.Begin? then worker.(pc := pc, since := c.now, lag := SinceClaim(c))
                 else worker.(pc := pc, beating := step.BeatRead? || worker.beating);
    MovedKeeps(c, w, moved, 0);
    // A crash can only drop an announcement that was still owed its release.
    WeakerSpare(Moved(c, w, moved), if worker.pc.Announced? && !pc.Announced? then 1 else 0, 0);
  }

  lemma BeatWriteKeeps(c: Config, w: nat)
    requires Inv(c, 0) && Enabled(c, BeatWrite(w))
    ensures Inv(Next(c, BeatWrite(w)), 0)
  {
    LeasedKeeps(c, 0);
    var d := Leased(c, c.store.row.(lease := Some(c.now + LEASE_SECONDS)));
    BeatenKeeps(d, w);
  }

  lemma BeatenKeeps(c: Config, w: nat)
    requires Inv(c, 0) && w < |c.workers| && c.past.leaseWrite == c.now
    ensures Inv(Moved(c, w, c.workers[w].(beating := false, since := c.now, lag := 0)), 0)
  {
    assert Accounted(c, c.workers[w]);
    MovedKeeps(c, w, c.workers[w].(beating := false, since := c.now, lag := 0), 0);
  }

  lemma CheckKeeps(c: Config, w: nat, idle: bool)
    requires Inv(c, 0) && Enabled(c, Check(w, idle))
    ensures Inv(Next(c, Check(w, idle)), 0)
  {
    var worker := c.workers[w];
    assert Accounted(c, worker);
    var current := c.store.row.lockVersion == worker.copy.lockVersion && c.store.row.status.Running?;
    MovedKeeps(c, w, worker.(pc := if current then Checked(idle) else Cancelled), 0);
  }

  lemma LeasedKeeps(c: Config, spare: int)
    requires Inv(c, spare)
    ensures Inv(Leased(c, c.store.row.(lease := Some(c.now + LEASE_SECONDS))), spare)
  {
    var d := Leased(c, c.store.row.(lease := Some(c.now + LEASE_SECONDS)));
    assert forall copy :: Plausible(c, copy) ==> Plausible(d, copy);
    assert forall w :: Accounted(c, w) ==> Accounted(d, w);
  }

  lemma NotedKeeps(c: Config, generation: nat, spare: int)
    requires Inv(c, spare)
    ensures Inv(Noted(c, generation), spare)
  {
    var d := Noted(c, generation);
    assert forall copy :: Plausible(c, copy) ==> Plausible(d, copy);
    assert forall w :: Accounted(c, w) ==> Accounted(d, w);
  }

  lemma WroteAccounted(c: Config, d: Config, worker: Worker)
    requires Accounted(c, worker) && worker.pc.Checked?
    requires d.store.row.lockVersion == c.store.row.lockVersion
    requires d.past.stale == c.past.stale && d.past.leaseWrite == c.past.leaseWrite
    ensures Accounted(d, Wrote(c, worker))
  {
  }

  lemma WriteKeeps(c: Config, w: nat)
    requires Inv(c, 0) && w < |c.workers| && c.workers[w].pc.Checked?
    ensures Inv(Next(c, Write(w)), 0)
  {
    var worker := c.workers[w];
    var events := [(if worker.pc.idle then StatusIdle else AgentOutput, Agent)];
    assert events[1..] == [];
    LoggedKeeps(c, events, 0);
    NotedKeeps(Logged(c, events), worker.copy.lockVersion, Announces(events));
    var d := Noted(Logged(c, events), worker.copy.lockVersion);
    WroteAccounted(c, d, worker);
    MovedKeeps(d, w, Wrote(c, worker), Announces(events));
  }

  lemma {:induction false} InputsAnnounceNothing(n: nat)
    ensures Announces(Inputs(n)) == 0
  {
    if n > 0 {
      InputsAnnounceNothing(n - 1);
      assert Inputs(n)[1..] == Inputs(n - 1);
    }
  }

  lemma SendKeeps(c: Config, messages: nat, answering: bool)
    requires Inv(c, 0) && Claimable(c.store.row, answering, c.now)
    ensures Inv(Sent(c, messages), 0)
  {
    var row := c.store.row;
    InputsAnnounceNothing(messages);
    var claimed := Leased(c, Claim(row, c.now)).store;
    AppendAllFacts(claimed, Inputs(messages));
    var e := Sent(c, messages);
    assert forall copy :: Plausible(c, copy) ==> Plausible(e, copy);
    assert forall w :: Accounted(c, w) ==> Accounted(e, w);
    assert Plausible(e, CopyOf(e.store.row));
    ClaimsAfterSend(c, messages, answering);
  }

  lemma ClaimsAfterSend(c: Config, messages: nat, answering: bool)
    requires Inv(c, 0) && Claimable(c.store.row, answering, c.now)
    ensures ClaimsOrdered(Sent(c, messages))
  {
    var g := c.store.row.lockVersion;
    var before, after := c.past.claims, c.past.claims + multiset{g};
    AppendAllFacts(Leased(c, Claim(c.store.row, c.now)).store, Inputs(messages));
    var e := Sent(c, messages);
    assert e.past.claims == after && e.store.row.lockVersion == g;
    assert after[g] == before[g] + 1;
    assert forall x :: x != g ==> after[x] == before[x];
    if c.past.stale == 0 && c.past.torn == 0 && e.past.takeovers > 0 {
      if c.past.takeovers > 0 {
        var x :| before[x] > 1;
        assert after[x] > 1;
      } else {
        assert after[g] > 1;
      }
    }
  }

  lemma DispatchFailsKeeps(c: Config, k: nat)
    requires Inv(c, 0) && Enabled(c, DispatchFails(k))
    ensures Inv(Next(c, DispatchFails(k)), 0)
  {
    var settled := c.(dispatches := c.dispatches[k := Settled]);
    SettledKeeps(c, settled);
    var copy := c.dispatches[k].copy.(status := c.store.row.status);
    assert Plausible(settled, copy);
    if c.store.row.status.Running? {
      EndedKeeps(settled, copy, (SessionError, System), (StatusIdle, System), Idle, Failed);
    }
  }

  lemma InterruptKeeps(c: Config, k: nat)
    requires Inv(c, 0) && Enabled(c, InterruptCommit(k))
    ensures Inv(Next(c, InterruptCommit(k)), 0)
  {
    var settled := c.(cancels := c.cancels[k := Settled]);
    SettledKeeps(c, settled);
    var copy := c.cancels[k].copy;
    assert Plausible(settled, copy);
    if Interrupts(copy) {
      EndedKeeps(settled, copy, (UserInterrupt, User), (StatusIdle, System), Idle, Interrupted);
    } else {
      LoggedKeeps(settled, [(UserInterrupt, User)], 0);
    }
  }

  lemma SettledKeeps(c: Config, d: Config)
    requires Inv(c, 0)
    requires d == c.(dispatches := d.dispatches, cancels := d.cancels)
    requires |d.dispatches| == |c.dispatches| && |d.cancels| == |c.cancels|
    requires forall i :: 0 <= i < |c.dispatches| ==> d.dispatches[i] == c.dispatches[i] || d.dispatches[i].Settled?
    requires forall i :: 0 <= i < |c.cancels| ==> d.cancels[i] == c.cancels[i] || d.cancels[i].Settled?
    ensures Inv(d, 0)
  {
    assert forall copy :: Plausible(c, copy) ==> Plausible(d, copy);
    assert forall w :: Accounted(c, w) ==> Accounted(d, w);
  }

  lemma SweepCountKeeps(c: Config)
    requires Inv(c, 0)
    ensures Inv(c.(past := c.past.(sweeps := c.past.sweeps + 1)), 0)
  {
    var d := c.(past := c.past.(sweeps := c.past.sweeps + 1));
    assert forall copy :: Plausible(c, copy) ==> Plausible(d, copy);
    assert forall w :: Accounted(c, w) ==> Accounted(d, w);
  }

  lemma FreshCopyPlausible(c: Config, spare: int)
    requires Inv(c, spare) && !c.store.row.status.Terminated?
    ensures Plausible(c, CopyOf(c.store.row))
  {
  }

  lemma SweptKeeps(c: Config)
    requires Inv(c, 0) && c.store.row.status.Running?
    ensures Inv(Released(Logged(c, [(SessionError, System), (StatusIdle, System)]), CopyOf(c.store.row), Idle, Failed), 0)
  {
    FreshCopyPlausible(c, 0);
    EndedKeeps(c, CopyOf(c.store.row), (SessionError, System), (StatusIdle, System), Idle, Failed);
  }

  lemma SweepKeeps(c: Config)
    requires Inv(c, 0) && Stranded(c.store.row, c.now)
    ensures Inv(Next(c, Sweep), 0)
  {
    SweepCountKeeps(c);
    var d := c.(past := c.past.(sweeps := c.past.sweeps + 1));
    SweptKeeps(d);
    assert Next(c, Sweep)
        == Released(Logged(d, [(SessionError, System), (StatusIdle, System)]), CopyOf(d.store.row), Idle, Failed);
  }

  lemma PassingKeeps(c: Config, step: Step)
    requires Inv(c, 0) && Enabled(c, step) && (step.Tick? || step.Delete?)
    ensures Inv(Next(c, step), 0)
  {
    var d := Next(c, step);
    assert forall copy :: Plausible(c, copy) ==> Plausible(d, copy);
    assert forall w :: Accounted(c, w) ==> Accounted(d, w);
  }

  lemma DeliverKeeps(c: Config)
    requires Inv(c, 0) && Enabled(c, Deliver)
    ensures Inv(Next(c, Deliver), 0)
  {
    var d := Next(c, Deliver);
    FreshCopyPlausible(c, 0);
    assert d.workers[..|d.workers| - 1] == c.workers;
    assert forall copy :: Plausible(c, copy) ==> Plausible(d, copy);
    assert forall w :: Accounted(c, w) ==> Accounted(d, w);
  }

  lemma InterruptReadKeeps(c: Config)
    requires Inv(c, 0) && Enabled(c, InterruptRead)
    ensures Inv(Next(c, InterruptRead), 0)
  {
    var d := Next(c, InterruptRead);
    FreshCopyPlausible(c, 0);
    assert forall copy :: Plausible(c, copy) ==> Plausible(d, copy);
    assert forall w :: Accounted(c, w) ==> Accounted(d, w);
  }

  lemma StepKeeps(c: Config, step: Step)
    requires Inv(c, 0) && Enabled(c, step)
    ensures Inv(Next(c, step), 0)
  {
    match step
    case Send(answering, messages) => SendKeeps(c, messages, answering);
    case Write(w) => WriteKeeps(c, w);
    case Sweep => SweepKeeps(c);
    case DispatchFails(k) => DispatchFailsKeeps(c, k);
    case InterruptCommit(k) => InterruptKeeps(c, k);
    case Refuse(w) => RefuseKeeps(c, w);
    case Finish(w, reason, lost) => FinishKeeps(c, w, reason, lost);
    case Fail(w, lost) => FailKeeps(c, w, lost);
    case Unwind(w, lost) => DoneKeeps(c, w, lost);
    case Begin(_) => MoveStepKeeps(c, step);
    case Check(w, idle) => CheckKeeps(c, w, idle);
    case Crash(_) => MoveStepKeeps(c, step);
    case BeatRead(_) => MoveStepKeeps(c, step);
    case BeatWrite(w) => BeatWriteKeeps(c, w);
    case Tick(_) => PassingKeeps(c, step);
    case Delete => PassingKeeps(c, step);
    case Deliver => DeliverKeeps(c);
    case InterruptRead => InterruptReadKeeps(c);
  }

  lemma {:induction false} RunKeeps(c: Config, steps: seq<Step>)
    requires Inv(c, 0) && Runs(c, steps)
    ensures Inv(After(c, steps), 0)
    decreases |steps|
  {
    if steps != [] {
      StepKeeps(c, steps[0]);
      RunKeeps(Next(c, steps[0]), steps[1..]);
    }
  }

  // --- the theorems, over every run from a new Session -----------------------

  lemma Reachable(steps: seq<Step>)
    requires Runs(START, steps)
    ensures Inv(After(START, steps), 0)
  {
    RunKeeps(START, steps);
  }

  /** Sequence numbers are exactly 1 to `last_event_seq`, in order. */
  lemma LogNumbered(steps: seq<Step>)
    requires Runs(START, steps)
    ensures var s := After(START, steps).store;
            |s.log| == s.row.lastEventSeq && forall i :: 0 <= i < |s.log| ==> s.log[i].seq_ == i + 1
  {
    Reachable(steps);
  }

  /** Nothing already in the log ever changes. */
  lemma {:induction false} LogOnlyGrows(c: Config, steps: seq<Step>)
    requires Inv(c, 0) && Runs(c, steps)
    ensures c.store.log <= After(c, steps).store.log
    decreases |steps|
  {
    if steps != [] {
      StepKeeps(c, steps[0]);
      LogOnlyGrows(Next(c, steps[0]), steps[1..]);
    }
  }

  /** Every end of a turn is announced: the log holds an idle or terminated
      event for each release, and for each worker about to release. */
  lemma TurnEndsAnnounced(steps: seq<Step>)
    requires Runs(START, steps)
    ensures var c := After(START, steps);
            && Announcements(c.store.log) >= c.past.releases + Announcing(c.workers)
            && c.past.releases >= c.store.row.lockVersion
  {
    Reachable(steps);
  }

  /** The generation counts the releases if and only if each was made from a copy
      of the generation it ended. One that was not loses a count for good. */
  lemma GenerationCountsReleases(steps: seq<Step>)
    requires Runs(START, steps)
    ensures var c := After(START, steps);
            c.store.row.lockVersion == c.past.releases <==> c.past.stale == 0
  {
    Reachable(steps);
  }

  /** What the two-step generation check buys in every run whatsoever: a worker
      writes at most one event per time the generation moved away from its own. */
  lemma StaleWritesBounded(steps: seq<Step>, w: nat)
    requires Runs(START, steps) && w < |After(START, steps).workers|
    ensures After(START, steps).workers[w].staleWrites <= After(START, steps).workers[w].departures
  {
    Reachable(steps);
    assert Accounted(After(START, steps), After(START, steps).workers[w]);
  }

  /** The generation leaves a worker once, and once more for each stale release
      that can bring it back: so a worker writes at most one event outside its
      generation, and one more for each stale release there has been. */
  lemma Fencing(steps: seq<Step>, w: nat)
    requires Runs(START, steps) && w < |After(START, steps).workers|
    ensures var c := After(START, steps);
            var worker := c.workers[w];
            && worker.staleWrites <= worker.departures
            && worker.departures <= c.past.stale + (if worker.copy.lockVersion < c.store.row.lockVersion then 1 else 0)
            && (c.past.stale == 0 ==> worker.copy.lockVersion <= c.store.row.lockVersion)
  {
    Reachable(steps);
    var c := After(START, steps);
    assert Accounted(c, c.workers[w]) && Plausible(c, c.workers[w].copy);
  }

  /** Every write comes right after its own check, as it would if the two were
      one step. `ready` is whose check the step before was. */
  predicate AtomicEmits(steps: seq<Step>, ready: Option<nat>) {
    if steps == [] then true
    else match steps[0]
      case Write(w) => ready == Some(w) && AtomicEmits(steps[1..], None)
      case Check(w, _) => AtomicEmits(steps[1..], Some(w))
      case _ => AtomicEmits(steps[1..], None)
  }

  function Ready(step: Step): Option<nat> {
    match step case Check(w, _) => Some(w) case _ => None
  }

  predicate Sorted(generations: seq<nat>) {
    forall i, j :: 0 <= i < j < |generations| ==> generations[i] <= generations[j]
  }

  ghost predicate NoneStale(c: Config) {
    forall i :: 0 <= i < |c.workers| ==> c.workers[i].staleWrites == 0
  }

  predicate ReadyHere(c: Config, ready: Option<nat>) {
    ready.Some? && ready.value < |c.workers| && c.workers[ready.value].pc.Checked? ==>
      c.workers[ready.value].copy.lockVersion == c.store.row.lockVersion
  }

  predicate InOrder(c: Config) {
    c.past.stale == 0 ==>
      && Sorted(c.past.written)
      && forall i :: 0 <= i < |c.past.written| ==> c.past.written[i] <= c.store.row.lockVersion
  }

  /** Nothing was written astray, whoever is ready is still where it checked, and
      the events so far are in the order of their generations. */
  ghost predicate Steady(c: Config, ready: Option<nat>) {
    NoneStale(c) && ReadyHere(c, ready) && InOrder(c)
  }

  /** What `w` has in common with the worker it was. */
  predicate SameWorker(w: Worker, was: Worker) {
    w.copy == was.copy && w.staleWrites == was.staleWrites
  }

  predicate EndsTurn(step: Step) {
    step.DispatchFails? || step.Refuse? || step.Finish? || step.Fail? || step.InterruptCommit? || step.Sweep?
  }

  lemma ReleasedSame(c: Config, d: Config, copy: Copy, status: Status, reason: StopReason, i: nat)
    requires i < |c.workers| == |d.workers| && SameWorker(d.workers[i], c.workers[i])
    ensures i < |Released(d, copy, status, reason).workers|
    ensures SameWorker(Released(d, copy, status, reason).workers[i], c.workers[i])
  {
  }

  lemma EndedSame(c: Config, step: Step, i: nat)
    requires Enabled(c, step) && i < |c.workers| && EndsTurn(step)
    ensures i < |Next(c, step).workers| && SameWorker(Next(c, step).workers[i], c.workers[i])
  {
    var lost := [(SessionError, System), (StatusIdle, System)];
    match step
    case Refuse(w) =>
      ReleasedSame(c, Logged(DoneWith(c, w), [(SessionError, System), (StatusTerminated, System)]),
                   c.workers[w].copy, Terminated, Unusable, i);
    case Finish(w, reason, outputs) =>
      ReleasedSame(c, Logged(DoneWith(c, w), Outputs(outputs)), c.workers[w].copy, Idle, reason, i);
    case Fail(w, outputs) =>
      ReleasedSame(c, Logged(DoneWith(c, w), Outputs(outputs) + lost), c.workers[w].copy, Idle, Failed, i);
    case Sweep =>
      ReleasedSame(c, Logged(c.(past := c.past.(sweeps := c.past.sweeps + 1)), lost), CopyOf(c.store.row), Idle, Failed, i);
    case _ =>
      RequestEndedSame(c, step, i);
  }

  lemma RequestEndedSame(c: Config, step: Step, i: nat)
    requires Enabled(c, step) && i < |c.workers| && (step.DispatchFails? || step.InterruptCommit?)
    ensures i < |Next(c, step).workers| && SameWorker(Next(c, step).workers[i], c.workers[i])
  {
  }

  lemma OtherwiseSame(c: Config, step: Step, i: nat)
    requires Enabled(c, step) && i < |c.workers| && !EndsTurn(step) && !step.Write?
    ensures i < |Next(c, step).workers| && SameWorker(Next(c, step).workers[i], c.workers[i])
  {
  }

  /** A worker keeps its copy, and only its own write can be astray. */
  lemma WorkerStep(c: Config, step: Step, i: nat)
    requires Enabled(c, step) && i < |Next(c, step).workers|
    ensures i >= |c.workers| ==> Next(c, step).workers[i].copy.status.Running? && Next(c, step).workers[i].staleWrites == 0
    ensures i < |c.workers| ==> Next(c, step).workers[i].copy == c.workers[i].copy
    ensures i < |c.workers| && (step == Write(i) ==> c.workers[i].copy.lockVersion == c.store.row.lockVersion) ==>
              Next(c, step).workers[i].staleWrites == c.workers[i].staleWrites
  {
    if i >= |c.workers| {
      assert step.Deliver?;
    } else if EndsTurn(step) {
      EndedSame(c, step, i);
    } else if !step.Write? {
      OtherwiseSame(c, step, i);
    }
  }

  lemma NoneStaleStep(c: Config, step: Step)
    requires Enabled(c, step) && NoneStale(c)
    requires step.Write? ==> c.workers[step.worker].copy.lockVersion == c.store.row.lockVersion
    ensures NoneStale(Next(c, step))
  {
    forall i | 0 <= i < |Next(c, step).workers|
      ensures Next(c, step).workers[i].staleWrites == 0
    {
      WorkerStep(c, step, i);
    }
  }

  lemma InOrderStep(c: Config, step: Step)
    requires Enabled(c, step) && Counted(c) && InOrder(c)
    requires step.Write? ==> c.workers[step.worker].copy.lockVersion == c.store.row.lockVersion
    ensures InOrder(Next(c, step))
  {
    if step.Write? {
      assert Next(c, step).past.written == c.past.written + [c.store.row.lockVersion];
    } else {
      assert Next(c, step).past.written == c.past.written;
    }
  }

  lemma SteadyStep(c: Config, step: Step, ready: Option<nat>)
    requires Counted(c) && Enabled(c, step) && Steady(c, ready)
    requires step.Write? ==> ready == Some(step.worker)
    ensures Steady(Next(c, step), Ready(step))
  {
    NoneStaleStep(c, step);
    InOrderStep(c, step);
  }

  /** Were the check and the write one step, no worker would ever write astray,
      whatever is released when; and with no stale release the generations of
      the workers' events would never decrease along the log. */
  lemma {:induction false} AtomicEmitsStay(c: Config, steps: seq<Step>, ready: Option<nat>)
    requires Inv(c, 0) && Steady(c, ready) && Runs(c, steps) && AtomicEmits(steps, ready)
    ensures NoneStale(After(c, steps))
    ensures After(c, steps).past.stale == 0 ==> Sorted(After(c, steps).past.written)
    decreases |steps|
  {
    if steps != [] {
      SteadyStep(c, steps[0], ready);
      StepKeeps(c, steps[0]);
      AtomicEmitsStay(Next(c, steps[0]), steps[1..], Ready(steps[0]));
    }
  }

  lemma {:induction false} RunsSplit(c: Config, first: seq<Step>, rest: seq<Step>)
    requires Runs(c, first) && Runs(After(c, first), rest)
    ensures Runs(c, first + rest) && After(c, first + rest) == After(After(c, first), rest)
    decreases |first|
  {
    if first == [] {
      assert first + rest == rest;
    } else {
      assert (first + rest)[1..] == first[1..] + rest;
      RunsSplit(Next(c, first[0]), first[1..], rest);
    }
  }

  lemma StaleStep(c: Config, step: Step)
    requires Enabled(c, step)
    ensures c.past.stale <= Next(c, step).past.stale && c.past.torn <= Next(c, step).past.torn
  {
  }

  lemma WipedStep(c: Config, step: Step)
    requires Enabled(c, step)
    ensures c.past.wiped <= Next(c, step).past.wiped
  {
  }

  lemma {:induction false} StaleOnlyGrows(c: Config, steps: seq<Step>)
    requires Runs(c, steps)
    ensures c.past.stale <= After(c, steps).past.stale
    ensures c.past.torn <= After(c, steps).past.torn
    ensures c.past.wiped <= After(c, steps).past.wiped
    decreases |steps|
  {
    if steps != [] {
      StaleStep(c, steps[0]);
      WipedStep(c, steps[0]);
      StaleOnlyGrows(Next(c, steps[0]), steps[1..]);
    }
  }

  // --- what the copies can be ------------------------------------------------

  /** A worker and a dispatch loaded a running row, an interrupt one that was not
      terminated. */
  ghost predicate CopiesLoaded(c: Config) {
    WorkersLoaded(c.workers) && DispatchesLoaded(c.dispatches) && CancelsLoaded(c.cancels)
  }

  ghost predicate WorkersLoaded(workers: seq<Worker>) {
    forall i :: 0 <= i < |workers| ==> workers[i].copy.status.Running?
  }

  ghost predicate DispatchesLoaded(dispatches: seq<Request>) {
    forall i :: 0 <= i < |dispatches| && dispatches[i].Waiting? ==> dispatches[i].copy.status.Running?
  }

  ghost predicate CancelsLoaded(cancels: seq<Request>) {
    forall i :: 0 <= i < |cancels| && cancels[i].Waiting? ==> !cancels[i].copy.status.Terminated?
  }

  lemma WorkersLoadedStep(c: Config, step: Step)
    requires WorkersLoaded(c.workers) && Enabled(c, step)
    ensures WorkersLoaded(Next(c, step).workers)
  {
    forall i | 0 <= i < |Next(c, step).workers|
      ensures Next(c, step).workers[i].copy.status.Running?
    {
      WorkerStep(c, step, i);
    }
  }

  lemma RequestsLoadedStep(c: Config, step: Step)
    requires DispatchesLoaded(c.dispatches) && CancelsLoaded(c.cancels) && Enabled(c, step)
    ensures DispatchesLoaded(Next(c, step).dispatches) && CancelsLoaded(Next(c, step).cancels)
  {
  }

  lemma CopiesLoadedStep(c: Config, step: Step)
    requires CopiesLoaded(c) && Enabled(c, step)
    ensures CopiesLoaded(Next(c, step))
  {
    WorkersLoadedStep(c, step);
    RequestsLoadedStep(c, step);
  }

  lemma {:induction false} ReachableCopies(c: Config, steps: seq<Step>)
    requires CopiesLoaded(c) && Runs(c, steps)
    ensures CopiesLoaded(After(c, steps))
    decreases |steps|
  {
    if steps != [] {
      CopiesLoadedStep(c, steps[0]);
      ReachableCopies(Next(c, steps[0]), steps[1..]);
    }
  }

  // --- when a release frees the row --------------------------------------------

  /** The status that a step which releases has told the client of. */
  function Closing(c: Config, step: Step): Option<Status>
    requires Enabled(c, step)
  {
    match step
    case Refuse(_) => Some(Terminated)
    case Finish(_, _, _) => Some(Idle)
    case Fail(_, _) => Some(Idle)
    case Sweep => Some(Idle)
    case DispatchFails(_) => if c.store.row.status.Running? then Some(Idle) else None
    case InterruptCommit(k) => if Interrupts(c.cancels[k].copy) then Some(Idle) else None
    case _ => None
  }

  /** An interrupt that read a parked Session and commits once it is no longer. */
  predicate LateUnparking(c: Config, step: Step) {
    && step.InterruptCommit? && step.request < |c.cancels| && c.cancels[step.request].Waiting?
    && c.cancels[step.request].copy.status.Idle? && Interrupts(c.cancels[step.request].copy)
    && !c.store.row.status.Idle?
  }

  predicate Frees(c: Config, step: Step)
    requires Enabled(c, step)
  {
    Closing(c, step).Some? ==> Next(c, step).store.row.status == Closing(c, step).value
  }

  /** A release leaves the row in the status it announced, whoever makes it and
      however old its copy, unless it is a late unparking. */
  lemma ReleaseFrees(c: Config, step: Step)
    requires CopiesLoaded(c) && Enabled(c, step)
    ensures Frees(c, step) <==> !LateUnparking(c, step)
    ensures LateUnparking(c, step) ==> Next(c, step).store.row.status == c.store.row.status
    ensures Closing(c, step).None? ==> Next(c, step).past.releases == c.past.releases
    ensures Closing(c, step).Some? ==> Next(c, step).past.releases == c.past.releases + 1
  {
  }

  predicate AllFree(c: Config, steps: seq<Step>)
    requires Runs(c, steps)
    decreases |steps|
  {
    steps == [] || (Frees(c, steps[0]) && AllFree(Next(c, steps[0]), steps[1..]))
  }

  predicate NoLateUnparking(c: Config, steps: seq<Step>)
    requires Runs(c, steps)
    decreases |steps|
  {
    steps == [] || (!LateUnparking(c, steps[0]) && NoLateUnparking(Next(c, steps[0]), steps[1..]))
  }

  /** Along a whole run, every release frees the row if and only if none is a
      late unparking. */
  lemma {:induction false} RunFrees(c: Config, steps: seq<Step>)
    requires CopiesLoaded(c) && Runs(c, steps)
    ensures AllFree(c, steps) <==> NoLateUnparking(c, steps)
    decreases |steps|
  {
    if steps != [] {
      ReleaseFrees(c, steps[0]);
      CopiesLoadedStep(c, steps[0]);
      RunFrees(Next(c, steps[0]), steps[1..]);
    }
  }

  /** What an interrupt does to a worker on the row's own generation: it stops
      it, unless it is a late unparking from exactly one generation ago, whose
      release puts the generation back to the worker's. */
  lemma InterruptStops(c: Config, k: nat, w: nat, idle: bool)
    requires Enabled(c, InterruptCommit(k)) && Interrupts(c.cancels[k].copy)
    requires w < |c.workers| && c.workers[w].pc.Working?
    requires c.store.row.status.Running? && c.workers[w].copy.lockVersion == c.store.row.lockVersion
    requires CopiesLoaded(c)
    ensures var d := Next(c, InterruptCommit(k));
            && Enabled(d, Check(w, idle))
            && (Next(d, Check(w, idle)).workers[w].pc.Checked?
                <==> c.cancels[k].copy.status.Idle? && c.cancels[k].copy.lockVersion + 1 == c.store.row.lockVersion)
  {
  }

  // --- termination ---------------------------------------------------------------

  /** What reopens a terminated Session: the end of a turn that was running when
      it was terminated, or an interrupt that was. */
  predicate Reopens(c: Config, step: Step)
    requires Enabled(c, step)
  {
    step.Finish? || step.Fail? || (step.InterruptCommit? && c.cancels[step.request].copy.status.Running?)
  }

  lemma TerminatedStep(c: Config, step: Step)
    requires CopiesLoaded(c) && c.store.row.status.Terminated? && Enabled(c, step)
    ensures Next(c, step).store.row.status.Terminated? <==> !Reopens(c, step)
  {
  }

  predicate StaysTerminated(c: Config, steps: seq<Step>)
    requires Runs(c, steps)
    decreases |steps|
  {
    c.store.row.status.Terminated? && (steps != [] ==> StaysTerminated(Next(c, steps[0]), steps[1..]))
  }

  predicate NeverReopens(c: Config, steps: seq<Step>)
    requires Runs(c, steps)
    decreases |steps|
  {
    steps == [] || (!Reopens(c, steps[0]) && NeverReopens(Next(c, steps[0]), steps[1..]))
  }

  lemma ReopeningIsStale(c: Config, step: Step)
    requires Inv(c, 0) && CopiesLoaded(c) && c.store.row.status.Terminated? && Enabled(c, step)
    requires Reopens(c, step)
    ensures Next(c, step).past.stale > 0
  {
    var copy := if step.InterruptCommit? then c.cancels[step.request].copy else c.workers[step.worker].copy;
    assert Plausible(c, copy);
  }

  /** A terminated Session stays so at every moment of a run if and only if no
      step of it reopens; and one that does is a stale release. */
  lemma {:induction false} TerminatedIsFinal(c: Config, steps: seq<Step>)
    requires Inv(c, 0) && CopiesLoaded(c) && c.store.row.status.Terminated? && Runs(c, steps)
    ensures StaysTerminated(c, steps) <==> NeverReopens(c, steps)
    ensures After(c, steps).past.stale == 0 ==> StaysTerminated(c, steps)
    ensures StaysTerminated(c, steps) ==> After(c, steps).store.row.status.Terminated?
    decreases |steps|
  {
    if steps != [] {
      TerminatedStep(c, steps[0]);
      if Reopens(c, steps[0]) {
        ReopeningIsStale(c, steps[0]);
      } else {
        StepKeeps(c, steps[0]);
        CopiesLoadedStep(c, steps[0]);
        TerminatedIsFinal(Next(c, steps[0]), steps[1..]);
      }
      StaleOnlyGrows(Next(c, steps[0]), steps[1..]);
    }
  }

  // --- who claims a generation --------------------------------------------------

  /** A task is named after the generation it runs. In every run a generation is
      claimed once, and once more at most for each takeover and stale release;
      with releases from the row as it was, once if and only if no claim took
      over a running Session. */
  lemma GenerationsClaimedOnce(steps: seq<Step>)
    requires Runs(START, steps)
    ensures var past := After(START, steps).past;
            && (forall g :: past.claims[g] <= 1 + past.takeovers + past.stale)
            && (past.stale == 0 && past.torn == 0 ==>
                  ((forall g :: past.claims[g] <= 1) <==> past.takeovers == 0))
  {
    Reachable(steps);
  }
}
