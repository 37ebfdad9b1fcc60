/**
 The doorbell of the event stream: who is waiting on which Session, and the
 bounded, lossy queue of previews in front of each open stream.
 */
module EventBroker {
  import opened Wrappers

  const DELTA_QUEUE_DEPTH: nat := 64

  datatype Frame = Frame(kind: string, text: string)

  // --- a registry: sets of members under a key -------------------------------

  /** `setdefault(key, set()).add(member)` */
  function Joined<M>(reg: map<string, set<M>>, key: string, member: M): map<string, set<M>> {
    reg[key := (if key in reg then reg[key] else {}) + {member}]
  }

  /** `discard`, then drop the key if nobody is left under it. */
  function Left<M>(reg: map<string, set<M>>, key: string, member: M): map<string, set<M>> {
    if key !in reg then reg
    else if reg[key] - {member} == {} then reg - {key}
    else reg[key := reg[key] - {member}]
  }

  /** No key outlives its last member. */
  ghost predicate Tidy<M>(reg: map<string, set<M>>) {
    forall key :: key in reg ==> reg[key] != {}
  }

  predicate Holds<M>(reg: map<string, set<M>>, key: string, member: M) {
    key in reg && member in reg[key]
  }

  datatype Change<M> = Join(key: string, member: M) | Leave(key: string, member: M) | Close

  function Changed<M>(reg: map<string, set<M>>, change: Change<M>): map<string, set<M>> {
    match change
    case Join(key, member) => Joined(reg, key, member)
    case Leave(key, member) => Left(reg, key, member)
    case Close => map[]
  }

  function Registry<M>(changes: seq<Change<M>>): map<string, set<M>> {
    if changes == [] then map[]
    else Changed(Registry(changes[..|changes| - 1]), changes[|changes| - 1])
  }

  /** A member that joined since the last close, and has not left since. */
  predicate Live<M(==)>(changes: seq<Change<M>>, key: string, member: M) {
    changes != [] &&
    var last := changes[|changes| - 1];
    (last == Join(key, member)
     || (!last.Close? && last != Leave(key, member) && Live(changes[..|changes| - 1], key, member)))
  }

  /** Everyone who ever joined. */
  function Joiners<M>(changes: seq<Change<M>>): set<M> {
    if changes == [] then {}
    else Joiners(changes[..|changes| - 1])
         + match changes[|changes| - 1] case Join(_, member) => {member} case _ => {}
  }

  lemma {:induction false} HeldWhileLive<M>(changes: seq<Change<M>>, key: string, member: M)
    ensures Holds(Registry(changes), key, member) <==> Live(changes, key, member)
    ensures Live(changes, key, member) ==> member in Joiners(changes)
  {
    if changes != [] {
      HeldWhileLive(changes[..|changes| - 1], key, member);
    }
  }

  lemma {:induction false} AlwaysTidy<M>(changes: seq<Change<M>>)
    ensures Tidy(Registry(changes))
  {
    if changes != [] {
      AlwaysTidy(changes[..|changes| - 1]);
    }
  }

  /** Whatever joins, leaves and closes, a key is registered exactly as long as
      it has a live member: none is dropped early, and none is left behind. */
  lemma RegisteredWhileLive<M>(changes: seq<Change<M>>, key: string)
    ensures key in Registry(changes) <==> exists member :: member in Joiners(changes) && Live(changes, key, member)
  {
    AlwaysTidy(changes);
    var reg := Registry(changes);
    if key in reg {
      var member :| member in reg[key];
      HeldWhileLive(changes, key, member);
    }
    if member :| member in Joiners(changes) && Live(changes, key, member) {
      HeldWhileLive(changes, key, member);
    }
  }

  lemma RegistryOneMore<M>(changes: seq<Change<M>>, change: Change<M>)
    ensures Registry(changes + [change]) == Changed(Registry(changes), change)
  {
    assert (changes + [change])[..|changes|] == changes;
  }

  // --- one subscription -------------------------------------------------------

  /** The queue, and the bell that says it is worth looking at. */
  datatype Channel = Channel(queue: seq<Frame>, bell: bool)

  const QUIET := Channel([], false)

  /** `put_nowait`, then ring; a full queue drops the frame and does not ring. */
  function Offered(c: Channel, frame: Frame): Channel {
    if |c.queue| >= DELTA_QUEUE_DEPTH then c else Channel(c.queue + [frame], true)
  }

  datatype Event = Publish(frame: Frame) | Drain

  function Played(events: seq<Event>): Channel {
    if events == [] then QUIET
    else
      var before := Played(events[..|events| - 1]);
      match events[|events| - 1]
      case Publish(frame) => Offered(before, frame)
      case Drain => QUIET
  }

  /** Everything the drains so far have taken. */
  function Drained(events: seq<Event>): seq<Frame> {
    if events == [] then []
    else
      var before := events[..|events| - 1];
      Drained(before) + if events[|events| - 1].Drain? then Played(before).queue else []
  }

  function Published(events: seq<Event>): seq<Frame> {
    if events == [] then []
    else Published(events[..|events| - 1])
         + match events[|events| - 1] case Publish(frame) => [frame] case Drain => []
  }

  /** `a` with some elements left out is `b`. */
  predicate Subsequence(a: seq<Frame>, b: seq<Frame>) {
    if a == [] then true
    else b != [] &&
         ((a[|a| - 1] == b[|b| - 1] && Subsequence(a[..|a| - 1], b[..|b| - 1])) || Subsequence(a, b[..|b| - 1]))
  }

  /** Frames published since the last drain. */
  function Burst(events: seq<Event>): nat {
    if events == [] || events[|events| - 1].Drain? then 0 else Burst(events[..|events| - 1]) + 1
  }

  predicate Unhurried(events: seq<Event>) {
    events == [] || (Burst(events) <= DELTA_QUEUE_DEPTH && Unhurried(events[..|events| - 1]))
  }

  /** The bell rings if and only if there is something to drain, always; the
      branch that drops a frame relies on it having been rung already. */
  lemma {:induction false} NoSilentBell(events: seq<Event>)
    ensures Played(events).bell <==> Played(events).queue != []
    ensures |Played(events).queue| == if Burst(events) <= 64 then Burst(events) else 64
  {
    if events != [] {
      NoSilentBell(events[..|events| - 1]);
    }
  }

  lemma {:induction false} SubsequenceOneMore(a: seq<Frame>, b: seq<Frame>, tail: seq<Frame>)
    requires Subsequence(a, b)
    ensures Subsequence(a + tail, b + tail)
    decreases |tail|
  {
    if tail == [] {
      assert a + tail == a && b + tail == b;
    } else {
      var n := |tail| - 1;
      SubsequenceOneMore(a, b, tail[..n]);
      assert (a + tail)[..|a + tail| - 1] == a + tail[..n];
      assert (b + tail)[..|b + tail| - 1] == b + tail[..n];
    }
  }

  lemma SubsequenceOfLonger(a: seq<Frame>, b: seq<Frame>, frame: Frame)
    requires Subsequence(a, b)
    ensures Subsequence(a, b + [frame])
  {
    assert (b + [frame])[..|b|] == b;
  }

  /** What has been drained and what is still queued, in order. */
  function Kept(events: seq<Event>): seq<Frame> {
    Drained(events) + Played(events).queue
  }

  lemma KeptStep(events: seq<Event>)
    requires events != []
    ensures var before := events[..|events| - 1];
            Kept(events) == Kept(before)
              + match events[|events| - 1]
                case Drain => []
                case Publish(frame) => if |Played(before).queue| >= DELTA_QUEUE_DEPTH then [] else [frame]
  {
    var before := events[..|events| - 1];
    match events[|events| - 1]
    case Drain => assert Kept(events) == Kept(before);
    case Publish(frame) =>
      assert Drained(events) == Drained(before);
      assert Drained(before) + (Played(before).queue + [frame]) == Kept(before) + [frame];
  }

  /** Nothing is invented, doubled or reordered on the way to the reader. */
  lemma {:induction false} KeptIsSubsequence(events: seq<Event>)
    ensures Subsequence(Kept(events), Published(events))
  {
    if events != [] {
      var before := events[..|events| - 1];
      KeptIsSubsequence(before);
      KeptStep(events);
      if events[|events| - 1].Drain? {
        assert Kept(events) == Kept(before) && Published(events) == Published(before);
      } else {
        var frame := events[|events| - 1].frame;
        assert Published(events) == Published(before) + [frame];
        if |Played(before).queue| < DELTA_QUEUE_DEPTH {
          SubsequenceOneMore(Kept(before), Published(before), [frame]);
          assert Kept(events) == Kept(before) + [frame];
        } else {
          assert Kept(events) == Kept(before);
          SubsequenceOfLonger(Kept(before), Published(before), frame);
        }
      }
    }
  }

  /** Nothing is lost if and only if no more than 64 frames ever arrived between
      two drains. */
  lemma {:induction false} LosslessIffUnhurried(events: seq<Event>)
    ensures |Kept(events)| <= |Published(events)|
    ensures Kept(events) == Published(events) <==> Unhurried(events)
  {
    if events != [] {
      var before := events[..|events| - 1];
      LosslessIffUnhurried(before);
      NoSilentBell(before);
      KeptStep(events);
      match events[|events| - 1]
      case Drain => assert Kept(events) == Kept(before) && Published(events) == Published(before);
      case Publish(frame) =>
        assert Published(events) == Published(before) + [frame];
        assert Published(events)[..|Published(before)|] == Published(before);
        if |Played(before).queue| < DELTA_QUEUE_DEPTH {
          assert Kept(events)[..|Kept(before)|] == Kept(before);
        }
    }
  }

  // --- the objects ------------------------------------------------------------

  class Bell {
    var rung: bool

    constructor ()
      ensures !rung
    {
      rung := false;
    }
  }

  class DeltaSubscription {
    var queue: seq<Frame>
    var arrived: bool

    ghost function Value(): Channel
      reads this
    {
      Channel(queue, arrived)
    }

    constructor ()
      ensures Value() == QUIET
    {
      queue, arrived := [], false;
    }

    method Offer(frame: Frame)
      modifies this
      ensures Value() == Offered(old(Value()), frame)
    {
      if |queue| < DELTA_QUEUE_DEPTH {
        queue := queue + [frame];
        arrived := true;
      }
    }

    /** Clears the bell, then takes one frame at a time until there is none. */
    method TakeAll() returns (taken: seq<Frame>)
      modifies this
      ensures Value() == QUIET && taken == old(queue)
    {
      arrived := false;
      taken := [];
      while queue != []
        invariant taken + queue == old(queue) && !arrived
        decreases |queue|
      {
        taken := taken + [queue[0]];
        queue := queue[1..];
      }
    }
  }

  /** The broker, with the history of its two registries. */
  class Broker {
    var waiters: map<string, set<Bell>>
    var deltaSubs: map<string, set<DeltaSubscription>>
    ghost var waits: seq<Change<Bell>>
    ghost var subscriptions: seq<Change<DeltaSubscription>>

    ghost predicate Valid()
      reads this
    {
      waiters == Registry(waits) && deltaSubs == Registry(subscriptions)
    }

    constructor ()
      ensures Valid() && waits == [] && subscriptions == []
    {
      waiters, deltaSubs, waits, subscriptions := map[], map[], [], [];
    }

    /** Entering `deltas`, and leaving it however it is left. */
    method Subscribe(session: string) returns (subscription: DeltaSubscription)
      requires Valid()
      modifies this`deltaSubs, this`subscriptions
      ensures Valid() && fresh(subscription) && subscription.Value() == QUIET
      ensures subscriptions == old(subscriptions) + [Join(session, subscription)]
    {
      subscription := new DeltaSubscription();
      if session !in deltaSubs {
        deltaSubs := deltaSubs[session := {}];
      }
      deltaSubs := deltaSubs[session := deltaSubs[session] + {subscription}];
      RegistryOneMore(subscriptions, Join(session, subscription));
      subscriptions := subscriptions + [Join(session, subscription)];
    }

    method Unsubscribe(session: string, subscription: DeltaSubscription)
      requires Valid()
      modifies this`deltaSubs, this`subscriptions
      ensures Valid() && subscriptions == old(subscriptions) + [Leave(session, subscription)]
    {
      if session in deltaSubs {
        deltaSubs := deltaSubs[session := deltaSubs[session] - {subscription}];
        if deltaSubs[session] == {} {
          deltaSubs := deltaSubs - {session};
        }
      }
      RegistryOneMore(subscriptions, Leave(session, subscription));
      subscriptions := subscriptions + [Leave(session, subscription)];
    }

    /** The two ends of `wait`. */
    method BeginWait(session: string) returns (woken: Bell)
      requires Valid()
      modifies this`waiters, this`waits
      ensures Valid() && fresh(woken) && !woken.rung
      ensures waits == old(waits) + [Join(session, woken)]
    {
      woken := new Bell();
      if session !in waiters {
        waiters := waiters[session := {}];
      }
      waiters := waiters[session := waiters[session] + {woken}];
      RegistryOneMore(waits, Join(session, woken));
      waits := waits + [Join(session, woken)];
    }

    method EndWait(session: string, woken: Bell)
      requires Valid()
      modifies this`waiters, this`waits
      ensures Valid() && waits == old(waits) + [Leave(session, woken)]
    {
      if session in waiters {
        waiters := waiters[session := waiters[session] - {woken}];
        if waiters[session] == {} {
          waiters := waiters - {session};
        }
      }
      RegistryOneMore(waits, Leave(session, woken));
      waits := waits + [Leave(session, woken)];
    }

    method Shut()
      requires Valid()
      modifies this
      ensures Valid() && waits == old(waits) + [Close] && subscriptions == old(subscriptions) + [Close]
    {
      RegistryOneMore(waits, Close);
      RegistryOneMore(subscriptions, Close);
      waiters, deltaSubs := map[], map[];
      waits, subscriptions := waits + [Close], subscriptions + [Close];
    }

    /** A session has an entry exactly while someone is waiting on it, or
        subscribed to it. */
    lemma EntriesAreInUse(session: string)
      requires Valid()
      ensures session in waiters <==> exists bell :: bell in Joiners(waits) && Live(waits, session, bell)
      ensures session in deltaSubs <==>
                exists s :: s in Joiners(subscriptions) && Live(subscriptions, session, s)
    {
      RegisteredWhileLive(waits, session);
      RegisteredWhileLive(subscriptions, session);
    }

    /** Rings every bell waiting on the session, and no other. */
    method OnNotify(session: string)
      modifies if session in waiters then waiters[session] else {}
      ensures session in waiters ==> forall bell :: bell in waiters[session] ==> bell.rung
    {
      var rest := if session in waiters then waiters[session] else {};
      while rest != {}
        invariant session in waiters ==> rest <= waiters[session]
        invariant session in waiters ==> forall bell :: bell in waiters[session] && bell !in rest ==> bell.rung
        invariant session !in waiters ==> rest == {}
        decreases rest
      {
        var bell :| bell in rest;
        bell.rung := true;
        rest := rest - {bell};
      }
    }

    /** Offers one preview to every subscription of its session, and to no other.
        A payload that does not parse is dropped. */
    method OnDelta(payload: Option<(string, Frame)>)
      modifies if payload.Some? && payload.value.0 in deltaSubs then deltaSubs[payload.value.0] else {}
      ensures payload.Some? && payload.value.0 in deltaSubs ==>
                forall s :: s in deltaSubs[payload.value.0] ==> s.Value() == Offered(old(s.Value()), payload.value.1)
    {
      if payload.None? || payload.value.0 !in deltaSubs {
        return;
      }
      var (session, frame) := payload.value;
      var rest := deltaSubs[session];
      while rest != {}
        invariant rest <= deltaSubs[session]
        invariant forall s :: s in rest ==> s.Value() == old(s.Value())
        invariant forall s :: s in deltaSubs[session] && s !in rest ==> s.Value() == Offered(old(s.Value()), frame)
        decreases rest
      {
        var s :| s in rest;
        s.Offer(frame);
        rest := rest - {s};
      }
    }
  }
}
