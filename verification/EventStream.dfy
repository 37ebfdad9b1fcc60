/**
 Reading a Session's log as it is written. The reader polls the table; wake-ups
 only change when it looks, so a connection is modelled by what each of its
 polls happens to see. Lost, doubled and spurious wake-ups are all sequences of
 such observations.
 */
module EventStream {
  import opened SessionProtocol
  import SessionRuns

  const STREAM_BATCH: nat := 100

  datatype Preview = Preview(kind: string, text: string)

  /** What comes out of the stream. Only events have a place in the log. */
  datatype Item = Event(entry: Entry) | Delta(preview: Preview) | Quiet

  /** One pass of the loop: the previews waiting, the log when the page was read,
      and whether the session, read by a statement after that, was terminated or
      gone. */
  datatype Observation = Observation(previews: seq<Preview>, log: seq<Entry>, over: bool)

  /** Previews of a kind this build does not know are skipped. */
  predicate Known(p: Preview) {
    p.kind == "agent.message_delta" || p.kind == "agent.thinking_delta"
  }

  // --- the query ------------------------------------------------------------

  function Beyond(log: seq<Entry>, after: nat): seq<Entry> {
    if log == [] then []
    else if log[0].seq_ > after then [log[0]] + Beyond(log[1..], after)
    else Beyond(log[1..], after)
  }

  function Page(log: seq<Entry>, after: nat): seq<Entry> {
    var rows := Beyond(log, after);
    if |rows| <= STREAM_BATCH then rows else rows[..STREAM_BATCH]
  }

  predicate NumberedFrom(log: seq<Entry>, base: nat) {
    forall i :: 0 <= i < |log| ==> log[i].seq_ == base + i + 1
  }

  function From(log: seq<Entry>, after: nat): seq<Entry> {
    if after <= |log| then log[after..] else []
  }

  lemma {:induction false} BeyondIsSlice(log: seq<Entry>, base: nat, after: nat)
    requires NumberedFrom(log, base)
    ensures Beyond(log, base + after) == From(log, after)
    ensures Beyond(log, base) == log
    decreases |log|
  {
    if log != [] {
      BeyondIsSlice(log[1..], base + 1, if after == 0 then 0 else after - 1);
      BeyondAll(log, base);
      if 0 < after <= |log| {
        assert log[1..][after - 1..] == log[after..];
      }
    }
  }

  lemma {:induction false} BeyondAll(log: seq<Entry>, after: nat)
    requires forall i :: 0 <= i < |log| ==> log[i].seq_ > after
    ensures Beyond(log, after) == log
  {
    if log != [] {
      BeyondAll(log[1..], after);
    }
  }

  /** On a numbered log the page is the next hundred entries, whole and in order. */
  lemma PageIsNext(log: seq<Entry>, after: nat)
    requires NumberedFrom(log, 0)
    ensures Page(log, after) ==
            if after >= |log| then [] else if |log| - after <= STREAM_BATCH then log[after..] else log[after..after + STREAM_BATCH]
  {
    BeyondIsSlice(log, 0, after);
  }

  // --- one connection -------------------------------------------------------

  function Deltas(previews: seq<Preview>): seq<Item> {
    if previews == [] then []
    else if Known(previews[0]) then [Delta(previews[0])] + Deltas(previews[1..])
    else Deltas(previews[1..])
  }

  function Events(page: seq<Entry>): seq<Item> {
    seq(|page|, i requires 0 <= i < |page| => Event(page[i]))
  }

  function LastSeq(page: seq<Entry>, after: nat): nat {
    if page == [] then after else page[|page| - 1].seq_
  }

  /** What one pass yields. */
  function Pass(poll: Observation, after: nat): seq<Item> {
    Deltas(poll.previews) + Events(Page(poll.log, after))
  }

  function Connection(polls: seq<Observation>, after: nat): seq<Item>
    decreases |polls|
  {
    if polls == [] then []
    else if polls[0].over then Pass(polls[0], after)
    else Pass(polls[0], after) + Onwards(polls, after)
  }

  /** What the passes after the first yield, if the session goes on. */
  function Onwards(polls: seq<Observation>, after: nat): seq<Item>
    requires polls != []
    decreases |polls|, 0
  {
    var page := Page(polls[0].log, after);
    if page == [] then [Quiet] + Connection(polls[1..], after)
    else Connection(polls[1..], LastSeq(page, after))
  }

  method YieldPreviews(previews: seq<Preview>) returns (items: seq<Item>)
    ensures items == Deltas(previews)
  {
    items := [];
    var j := 0;
    while j < |previews|
      invariant 0 <= j <= |previews|
      invariant items + Deltas(previews[j..]) == Deltas(previews)
    {
      assert previews[j..][1..] == previews[j + 1..];
      if Known(previews[j]) {
        items := items + [Delta(previews[j])];
      }
      j := j + 1;
    }
  }

  /** Yields a page event by event, moving the cursor with each. */
  method YieldPage(page: seq<Entry>, after: nat) returns (items: seq<Item>, lastSeq: nat)
    ensures items == Events(page) && lastSeq == LastSeq(page, after)
  {
    items, lastSeq := [], after;
    var j := 0;
    while j < |page|
      invariant 0 <= j <= |page|
      invariant items == Events(page[..j])
      invariant lastSeq == LastSeq(page[..j], after)
    {
      lastSeq := page[j].seq_;
      items := items + [Event(page[j])];
      j := j + 1;
    }
    assert page[..j] == page;
  }

  /** The loop itself. It ends at the deadline, or with the session. */
  method StreamEvents(polls: seq<Observation>, after: nat) returns (items: seq<Item>)
    ensures items == Connection(polls, after)
  {
    items := [];
    var lastSeq := after;
    var i := 0;
    while i < |polls|
      invariant 0 <= i <= |polls|
      invariant items + Connection(polls[i..], lastSeq) == Connection(polls, after)
    {
      var poll := polls[i];
      ghost var before, start := items, lastSeq;
      assert polls[i..][0] == poll && polls[i..][1..] == polls[i + 1..];
      var previews := YieldPreviews(poll.previews);
      var page := Page(poll.log, lastSeq);
      var events;
      events, lastSeq := YieldPage(page, lastSeq);
      items := items + (previews + events);
      assert items == before + Pass(poll, start);
      if poll.over {
        return;
      }
      Regroup(before, Pass(poll, start), Onwards(polls[i..], start));
      if page == [] {
        Regroup(items, [Quiet], Connection(polls[i + 1..], start));
        items := items + [Quiet];
      }
      i := i + 1;
    }
  }

  lemma Regroup(a: seq<Item>, b: seq<Item>, c: seq<Item>)
    ensures a + (b + c) == (a + b) + c
  {
  }

  // --- what the items of a pass are -------------------------------------------

  lemma {:induction false} DeltasConcat(a: seq<Preview>, b: seq<Preview>)
    ensures Deltas(a + b) == Deltas(a) + Deltas(b)
  {
    if a == [] {
      assert a + b == b;
    } else {
      assert (a + b)[0] == a[0] && (a + b)[1..] == a[1..] + b;
      DeltasConcat(a[1..], b);
    }
  }

  /** Previews go out as they wait, each whole if it is a delta of a message or of
      thinking, and none for any other. */
  lemma DeltasOneByOne(previews: seq<Preview>, more: Preview)
    ensures Deltas([]) == []
    ensures Deltas(previews + [more])
         == Deltas(previews)
          + if more.kind == "agent.message_delta" || more.kind == "agent.thinking_delta" then [Delta(more)] else []
  {
    DeltasConcat(previews, [more]);
    assert [more][1..] == [] && Deltas([]) == [];
  }

  lemma NextPage(log: seq<Entry>, after: nat)
    requires NumberedFrom(log, 0)
    ensures var next := From(log, after);
            var n := if |next| <= 100 then |next| else 100;
            Page(log, after) == next[..n] && LastSeq(Page(log, after), after) == after + n
  {
    PageIsNext(log, after);
    if after < |log| {
      var page := Page(log, after);
      assert page[|page| - 1] == log[after + |page| - 1];
    }
  }

  lemma WithNothing(items: seq<Item>)
    ensures [] + items == items && items + [] == items
  {
  }

  /** A pass over a numbered log: the previews, then the next events up to a hundred,
      then silence if there are none; and unless the session is over, the passes after
      it, from behind the last of those events. */
  lemma ConnectionGoesOn(polls: seq<Observation>, after: nat)
    requires polls != [] && NumberedFrom(polls[0].log, 0)
    ensures var next := From(polls[0].log, after);
            var n := if |next| <= 100 then |next| else 100;
            var rest := (if n == 0 then [Quiet] else []) + Connection(polls[1..], after + n);
            (Connection(polls, after)
             == Deltas(polls[0].previews) + Events(next[..n]) + if polls[0].over then [] else rest)
  {
    NextPage(polls[0].log, after);
    WithNothing(Pass(polls[0], after));
    WithNothing(Onwards(polls, after));
  }

  // --- what a client receives -----------------------------------------------

  function EventsIn(items: seq<Item>): seq<Entry> {
    if items == [] then []
    else if items[0].Event? then [items[0].entry] + EventsIn(items[1..])
    else EventsIn(items[1..])
  }

  /** The id the client resumes with: previews and silences do not carry one. */
  function LastId(items: seq<Item>, after: nat): nat
    decreases |items|
  {
    if items == [] then after
    else LastId(items[1..], if items[0].Event? then items[0].entry.seq_ else after)
  }

  predicate Prefixes(polls: seq<Observation>, log: seq<Entry>) {
    forall i :: 0 <= i < |polls| ==> polls[i].log <= log
  }

  lemma {:induction false} EventsInConcat(a: seq<Item>, b: seq<Item>)
    ensures EventsIn(a + b) == EventsIn(a) + EventsIn(b)
  {
    if a == [] {
      assert a + b == b;
    } else {
      assert (a + b)[0] == a[0] && (a + b)[1..] == a[1..] + b;
      EventsInConcat(a[1..], b);
    }
  }

  lemma {:induction false} EventsInDeltas(previews: seq<Preview>)
    ensures EventsIn(Deltas(previews)) == []
  {
    if previews != [] {
      EventsInDeltas(previews[1..]);
      if Known(previews[0]) {
        assert Deltas(previews)[1..] == Deltas(previews[1..]);
      }
    }
  }

  lemma {:induction false} EventsInEvents(page: seq<Entry>)
    ensures EventsIn(Events(page)) == page
  {
    if page != [] {
      assert Events(page)[1..] == Events(page[1..]);
      EventsInEvents(page[1..]);
    }
  }

  /** One pass adds the page to the events, and nothing else. */
  lemma PassEvents(poll: Observation, after: nat)
    ensures EventsIn(Pass(poll, after)) == Page(poll.log, after)
  {
    EventsInDeltas(poll.previews);
    EventsInEvents(Page(poll.log, after));
    EventsInConcat(Deltas(poll.previews), Events(Page(poll.log, after)));
  }

  lemma ConnectionEvents(polls: seq<Observation>, after: nat)
    requires polls != []
    ensures EventsIn(Connection(polls, after))
         == Page(polls[0].log, after)
          + if polls[0].over then [] else EventsIn(Connection(polls[1..], LastSeq(Page(polls[0].log, after), after)))
  {
    PassEvents(polls[0], after);
    if !polls[0].over {
      EventsInConcat(Pass(polls[0], after), Onwards(polls, after));
      if Page(polls[0].log, after) == [] {
        EventsInConcat([Quiet], Connection(polls[1..], after));
      }
    }
  }

  lemma PageIsSlice(seen: seq<Entry>, after: nat, log: seq<Entry>)
    requires NumberedFrom(log, 0) && seen <= log
    ensures var page := Page(seen, after);
            && page <= From(log, after)
            && LastSeq(page, after) == after + |page|
            && From(log, after)[|page|..] == From(log, after + |page|)
  {
    PageIsNext(seen, after);
    var page := Page(seen, after);
    if page != [] {
      assert forall i :: 0 <= i < |page| ==> page[i] == seen[after + i] == log[after + i];
      assert page[|page| - 1].seq_ == after + |page|;
    }
  }

  function PageOf(poll: Observation, after: nat): seq<Entry> {
    Page(poll.log, after)
  }

  /** The pages of one connection, each from where the one before it ended. */
  function Paged(polls: seq<Observation>, page: (Observation, nat) -> seq<Entry>, after: nat): seq<Entry>
    decreases |polls|
  {
    if polls == [] then []
    else
      var first := page(polls[0], after);
      if polls[0].over then first else first + Paged(polls[1..], page, LastSeq(first, after))
  }

  lemma {:induction false} ConnectionPages(polls: seq<Observation>, after: nat)
    ensures EventsIn(Connection(polls, after)) == Paged(polls, PageOf, after)
    decreases |polls|
  {
    if polls != [] {
      ConnectionEvents(polls, after);
      if !polls[0].over {
        ConnectionPages(polls[1..], LastSeq(Page(polls[0].log, after), after));
      } else {
        assert Page(polls[0].log, after) + [] == Page(polls[0].log, after);
      }
    }
  }

  /** The next page of the log. */
  predicate IsNext(page: seq<Entry>, after: nat, log: seq<Entry>) {
    page <= From(log, after) && LastSeq(page, after) == after + |page|
  }

  lemma {:induction false} PagedIsSlice(
      polls: seq<Observation>, page: (Observation, nat) -> seq<Entry>, after: nat, log: seq<Entry>)
    requires forall i, n: nat :: 0 <= i < |polls| ==> IsNext(page(polls[i], n), n, log)
    ensures Paged(polls, page, after) <= From(log, after)
    decreases |polls|
  {
    if polls != [] {
      var first := page(polls[0], after);
      assert IsNext(page(polls[0], after), after, log);
      if !polls[0].over {
        var last := LastSeq(first, after);
        PagedIsSlice(polls[1..], page, last, log);
        SliceGoesOn(first, Paged(polls[1..], page, last), after, log);
      }
    }
  }

  lemma EachIsNext(polls: seq<Observation>, log: seq<Entry>)
    requires NumberedFrom(log, 0) && Prefixes(polls, log)
    ensures forall i, n: nat :: 0 <= i < |polls| ==> IsNext(PageOf(polls[i], n), n, log)
  {
    forall i, n: nat | 0 <= i < |polls|
      ensures IsNext(PageOf(polls[i], n), n, log)
    {
      PageIsSlice(polls[i].log, n, log);
    }
  }

  /** The events of one connection are the next ones of the log. */
  lemma ConnectionIsSlice(polls: seq<Observation>, after: nat, log: seq<Entry>)
    requires NumberedFrom(log, 0) && Prefixes(polls, log)
    ensures EventsIn(Connection(polls, after)) <= From(log, after)
  {
    EachIsNext(polls, log);
    PagedIsSlice(polls, PageOf, after, log);
    ConnectionPages(polls, after);
  }

  lemma PrefixExtends<T>(whole: seq<T>, head: seq<T>, next: seq<T>)
    requires head <= whole && next <= whole[|head|..]
    ensures head + next <= whole
  {
  }

  lemma {:induction false} LastIdFollows(items: seq<Item>, after: nat, log: seq<Entry>)
    requires NumberedFrom(log, 0) && EventsIn(items) <= From(log, after)
    ensures LastId(items, after) == after + |EventsIn(items)|
    decreases |items|
  {
    if items != [] && items[0].Event? {
      assert EventsIn(items)[0] == From(log, after)[0] == log[after];
      assert EventsIn(items)[1..] == EventsIn(items[1..]);
      assert From(log, after)[1..] == From(log, after + 1);
      LastIdFollows(items[1..], after + 1, log);
    } else if items != [] {
      LastIdFollows(items[1..], after, log);
    }
  }

  // --- reconnecting ---------------------------------------------------------

  /** A client's attempt: what the server saw, and how many items arrived before
      the connection broke. */
  datatype Attempt = Attempt(polls: seq<Observation>, arrived: nat)

  function Arrived(a: Attempt, after: nat): seq<Item> {
    var items := Connection(a.polls, after);
    if a.arrived <= |items| then items[..a.arrived] else items
  }

  /** A connection can break behind any item. */
  lemma BrokenAnywhere(polls: seq<Observation>, k: nat, after: nat)
    ensures Arrived(Attempt(polls, k), after) <= Connection(polls, after)
    ensures |Arrived(Attempt(polls, k), after)| == if k < |Connection(polls, after)| then k else |Connection(polls, after)|
  {
  }

  /** The events an attempt brings, and the id the client then resumes with. */
  function Delivery(a: Attempt, after: nat): (seq<Entry>, nat) {
    var items := Arrived(a, after);
    (EventsIn(items), LastId(items, after))
  }

  /** Attempts one after another, each from where the one before it left off. */
  function Resumed(attempts: seq<Attempt>, deliver: (Attempt, nat) -> (seq<Entry>, nat), after: nat): seq<Entry>
    decreases |attempts|
  {
    if attempts == [] then []
    else
      var (got, last) := deliver(attempts[0], after);
      got + Resumed(attempts[1..], deliver, last)
  }

  /** Everything a client that resumes with the last id it saw receives. */
  function Received(attempts: seq<Attempt>, after: nat): seq<Entry> {
    Resumed(attempts, Delivery, after)
  }

  lemma ArrivedIsSlice(a: Attempt, after: nat, log: seq<Entry>)
    requires NumberedFrom(log, 0) && Prefixes(a.polls, log)
    ensures EventsIn(Arrived(a, after)) <= From(log, after)
    ensures LastId(Arrived(a, after), after) == after + |EventsIn(Arrived(a, after))|
  {
    var items := Connection(a.polls, after);
    ConnectionIsSlice(a.polls, after, log);
    if a.arrived <= |items| {
      EventsInConcat(items[..a.arrived], items[a.arrived..]);
      assert items == items[..a.arrived] + items[a.arrived..];
    }
    LastIdFollows(Arrived(a, after), after, log);
  }

  /** The next entries, with the client's last id moved past them. */
  predicate Brings(delivery: (seq<Entry>, nat), after: nat, log: seq<Entry>) {
    delivery.0 <= From(log, after) && delivery.1 == after + |delivery.0|
  }

  lemma SliceGoesOn(got: seq<Entry>, more: seq<Entry>, after: nat, log: seq<Entry>)
    requires got <= From(log, after) && more <= From(log, after + |got|)
    ensures got + more <= From(log, after)
  {
    assert From(log, after)[|got|..] == From(log, after + |got|);
    PrefixExtends(From(log, after), got, more);
  }

  lemma {:induction false} ResumedIsSlice(
      attempts: seq<Attempt>, deliver: (Attempt, nat) -> (seq<Entry>, nat), after: nat, log: seq<Entry>)
    requires forall i, n: nat :: 0 <= i < |attempts| ==> Brings(deliver(attempts[i], n), n, log)
    ensures Resumed(attempts, deliver, after) <= From(log, after)
    decreases |attempts|
  {
    if attempts != [] {
      var (got, last) := deliver(attempts[0], after);
      assert Brings(deliver(attempts[0], after), after, log);
      ResumedIsSlice(attempts[1..], deliver, last, log);
      SliceGoesOn(got, Resumed(attempts[1..], deliver, last), after, log);
    }
  }

  /** However a client's connections break, and whatever wakes or fails to wake
      them, it receives exactly the entries after its starting point, in order,
      with no gap and none twice. */
  lemma ReconnectingReaderSeesTheLog(attempts: seq<Attempt>, after: nat, log: seq<Entry>)
    requires NumberedFrom(log, 0)
    requires forall i :: 0 <= i < |attempts| ==> Prefixes(attempts[i].polls, log)
    ensures Received(attempts, after) <= From(log, after)
  {
    forall i, n: nat | 0 <= i < |attempts|
      ensures Brings(Delivery(attempts[i], n), n, log)
    {
      ArrivedIsSlice(attempts[i], n, log);
    }
    ResumedIsSlice(attempts, Delivery, after, log);
  }

  // --- progress -------------------------------------------------------------

  /** One finished poll of a connection delivers a full page, if there is one. */
  lemma FirstPollAdvances(polls: seq<Observation>, after: nat)
    requires polls != [] && NumberedFrom(polls[0].log, 0)
    ensures |EventsIn(Connection(polls, after))|
         >= if after >= |polls[0].log| then 0
            else if |polls[0].log| - after <= STREAM_BATCH then |polls[0].log| - after else STREAM_BATCH
  {
    ConnectionEvents(polls, after);
    PageIsNext(polls[0].log, after);
  }

  /** A stream that finds the session over closes after that one page. It has
      delivered all there will be if and only if the rest of the log fits in one
      page and the page was read from all of it: what is written between the page
      and the status is missed. */
  lemma OverClosesAfterOnePage(poll: Observation, polls: seq<Observation>, after: nat, log: seq<Entry>)
    requires poll.over && NumberedFrom(log, 0) && poll.log <= log
    ensures EventsIn(Connection([poll] + polls, after)) == From(log, after)
       <==> |From(log, after)| <= STREAM_BATCH && (From(log, after) == [] || poll.log == log)
  {
    ConnectionEvents([poll] + polls, after);
    PageIsNext(poll.log, after);
    PageIsSlice(poll.log, after, log);
  }

  /** An attempt that stays for a whole poll of the finished log. */
  ghost predicate Stays(a: Attempt, log: seq<Entry>) {
    && a.polls != [] && a.polls[0].log == log && Prefixes(a.polls, log)
    && forall after: nat :: a.arrived >= |Connection(a.polls, after)|
  }

  lemma StayingAdvances(a: Attempt, after: nat, log: seq<Entry>)
    requires NumberedFrom(log, 0) && after <= |log| && Stays(a, log)
    ensures var got := |EventsIn(Arrived(a, after))|;
            got <= |log| - after && (got >= STREAM_BATCH || got == |log| - after)
  {
    assert Arrived(a, after) == Connection(a.polls, after);
    FirstPollAdvances(a.polls, after);
    ArrivedIsSlice(a, after, log);
  }

  /** A whole page, or all there is. */
  predicate Gains(delivery: (seq<Entry>, nat), after: nat, log: seq<Entry>) {
    var got := |delivery.0|;
    && delivery.1 == after + got
    && (after <= |log| ==> got <= |log| - after && (got >= STREAM_BATCH || got == |log| - after))
  }

  lemma AddsUp(got: nat, more: nat, attempts: nat, left: nat)
    requires got <= left && (got >= STREAM_BATCH || got == left)
    requires more >= STREAM_BATCH * attempts || more >= left - got
    ensures got + more >= STREAM_BATCH * (attempts + 1) || got + more >= left
  {
  }

  lemma {:induction false} GainsAddUp(
      attempts: seq<Attempt>, deliver: (Attempt, nat) -> (seq<Entry>, nat), after: nat, log: seq<Entry>)
    requires after <= |log| && forall i, n: nat :: 0 <= i < |attempts| ==> Gains(deliver(attempts[i], n), n, log)
    ensures |Resumed(attempts, deliver, after)| >= STREAM_BATCH * |attempts|
            || |Resumed(attempts, deliver, after)| >= |log| - after
    decreases |attempts|
  {
    if attempts != [] {
      var (got, last) := deliver(attempts[0], after);
      assert Gains(deliver(attempts[0], after), after, log);
      GainsAddUp(attempts[1..], deliver, last, log);
      AddsUp(|got|, |Resumed(attempts[1..], deliver, last)|, |attempts| - 1, |log| - after);
    }
  }

  lemma ReconnectingAdvances(attempts: seq<Attempt>, after: nat, log: seq<Entry>)
    requires NumberedFrom(log, 0) && after <= |log|
    requires forall i :: 0 <= i < |attempts| ==> Stays(attempts[i], log)
    ensures |Received(attempts, after)| >= STREAM_BATCH * |attempts| || |Received(attempts, after)| >= |log| - after
  {
    forall i, n: nat | 0 <= i < |attempts|
      ensures Gains(Delivery(attempts[i], n), n, log)
    {
      ArrivedIsSlice(attempts[i], n, log);
      if n <= |log| {
        StayingAdvances(attempts[i], n, log);
      }
    }
    GainsAddUp(attempts, Delivery, after, log);
  }

  /** Reconnecting makes up for it: `n` attempts that each stay for a poll of the
      finished log drain it, if no more than `100 * n` entries are left. */
  lemma ReconnectingDrains(attempts: seq<Attempt>, after: nat, log: seq<Entry>)
    requires NumberedFrom(log, 0) && after <= |log| <= after + STREAM_BATCH * |attempts|
    requires forall i :: 0 <= i < |attempts| ==> Stays(attempts[i], log)
    ensures Received(attempts, after) == log[after..]
  {
    ReconnectingAdvances(attempts, after, log);
    ReconnectingReaderSeesTheLog(attempts, after, log);
  }

  // --- against the protocol ---------------------------------------------------

  predicate Over(row: Row) {
    row.status.Terminated? || row.deleted
  }

  ghost predicate SeenAt(poll: Observation, steps: seq<Step>, page: nat, status: nat) {
    && page <= status <= |steps| && Runs(START, steps[..page]) && Runs(START, steps[..status])
    && poll.log == After(START, steps[..page]).store.log
    && (poll.over <==> Over(After(START, steps[..status]).store.row))
  }

  /** The poll read its page at one moment of the run, and the status at another
      not before it. */
  ghost predicate SeenDuring(poll: Observation, steps: seq<Step>) {
    exists page: nat, status: nat :: SeenAt(poll, steps, page, status)
  }

  lemma {:induction false} RunSuffix(c: Config, steps: seq<Step>, k: nat)
    requires Runs(c, steps) && k <= |steps|
    ensures Runs(c, steps[..k]) && Runs(After(c, steps[..k]), steps[k..])
    ensures After(After(c, steps[..k]), steps[k..]) == After(c, steps)
    decreases k
  {
    if k == 0 {
      assert steps[k..] == steps;
    } else {
      assert steps[..k][1..] == steps[1..][..k - 1] && steps[1..][k - 1..] == steps[k..];
      RunSuffix(Next(c, steps[0]), steps[1..], k - 1);
    }
  }

  /** A client that follows a Session through any run of the protocol receives
      the next entries of the log that run ends with. */
  lemma ReaderFollowsRun(steps: seq<Step>, attempts: seq<Attempt>, after: nat)
    requires Runs(START, steps)
    requires forall i, j :: 0 <= i < |attempts| && 0 <= j < |attempts[i].polls| ==> SeenDuring(attempts[i].polls[j], steps)
    ensures Received(attempts, after) <= From(After(START, steps).store.log, after)
  {
    var log := After(START, steps).store.log;
    LogNumbered(steps);
    forall i | 0 <= i < |attempts|
      ensures Prefixes(attempts[i].polls, log)
    {
      forall j | 0 <= j < |attempts[i].polls|
        ensures attempts[i].polls[j].log <= log
      {
        assert SeenDuring(attempts[i].polls[j], steps);
        var k: nat, status: nat :| SeenAt(attempts[i].polls[j], steps, k, status);
        RunSuffix(START, steps, k);
        Reachable(steps[..k]);
        LogOnlyGrows(After(START, steps[..k]), steps[k..]);
      }
    }
    ReconnectingReaderSeesTheLog(attempts, after, log);
  }

  /** A Session is terminated between the two reads of a poll: the stream closes,
      and the client has been told neither why nor that it is over. */
  lemma StreamMissesTheEnd() returns (steps: seq<Step>, poll: Observation, after: nat)
    ensures Runs(START, steps) && SeenDuring(poll, steps) && poll.over
    ensures EventsIn(Connection([poll], after)) == []
    ensures var log := After(START, steps).store.log;
            after < |log| && log[|log| - 1].kind.StatusTerminated?
  {
    var before;
    before, steps := SessionRuns.IsRefused();
    var log := After(START, before).store.log;
    poll, after := Observation([], log, true), |log|;
    assert steps[..|before|] == before && steps[..|steps|] == steps;
    assert SeenAt(poll, steps, |before|, |steps|);
    LogNumbered(before);
    NothingMore(poll, after);
  }

  lemma NothingMore(poll: Observation, after: nat)
    requires NumberedFrom(poll.log, 0) && after >= |poll.log| && poll.over
    ensures EventsIn(Connection([poll], after)) == []
  {
    ConnectionEvents([poll], after);
    PageIsNext(poll.log, after);
  }
}
