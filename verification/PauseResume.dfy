/**
 A turn that stops to ask, and the turn that answers: which calls wait for the
 client, what the client is told about them, and how its answers are put back
 in the order the graph wants.
 */
module PauseResume {
  import opened Wrappers

  // --- which tools stop to ask ------------------------------------------------

  datatype Policy = AlwaysAllow | AlwaysAsk

  /** One entry of a toolset's `configs`; an invalid policy is none at all. */
  datatype Entry = Entry(name: string, policy: Option<Policy>)

  datatype Declared =
    | Toolset(kind: string, defaultPolicy: Option<Policy>, configs: seq<Entry>)
    | CustomTool(name: string)
    | Other

  datatype DecisionKind = Approves | Rejects | Responds

  type Interrupts = map<string, set<DecisionKind>>

  const AGENT_TOOLS := ["execute", "ls", "read_file", "write_file", "edit_file", "glob", "grep", "write_todos"]
  const WEB_TOOLS := ["web_fetch", "web_search"]
  const NATIVE: set<DecisionKind> := {Approves, Rejects}
  const CUSTOM: set<DecisionKind> := {Responds, Rejects}

  function ToolNames(kind: string): seq<string> {
    if kind == "agent_toolset_20260401" then AGENT_TOOLS
    else if kind == "web_toolset_20260401" then WEB_TOOLS
    else []
  }

  function PolicyOr(policy: Option<Policy>, default: Policy): Policy {
    match policy case Some(p) => p case None => default
  }

  /** The policy of the last entry that names the tool, or the toolset's own. */
  function Resolved(configs: seq<Entry>, name: string, default: Policy): Policy {
    if configs == [] then default
    else
      var last := configs[|configs| - 1];
      if last.name == name then PolicyOr(last.policy, default)
      else Resolved(configs[..|configs| - 1], name, default)
  }

  /** The toolset has this tool, and wants it asked about. */
  predicate Asks(tool: Declared, name: string) {
    tool.Toolset? && name in ToolNames(tool.kind)
    && Resolved(tool.configs, name, PolicyOr(tool.defaultPolicy, AlwaysAllow)).AlwaysAsk?
  }

  predicate LastNaming(configs: seq<Entry>, name: string, i: nat) {
    i < |configs| && configs[i].name == name && forall j :: i < j < |configs| ==> configs[j].name != name
  }

  lemma {:induction false} ResolvedByLast(configs: seq<Entry>, name: string, default: Policy)
    ensures forall i: nat :: LastNaming(configs, name, i) ==>
              Resolved(configs, name, default) == if configs[i].policy.Some? then configs[i].policy.value else default
    ensures (forall i: nat :: !LastNaming(configs, name, i)) ==> Resolved(configs, name, default) == default
  {
    if configs != [] {
      var n := |configs| - 1;
      ResolvedByLast(configs[..n], name, default);
      if configs[n].name == name {
        assert LastNaming(configs, name, n);
      } else {
        assert forall i: nat :: LastNaming(configs, name, i) <==> LastNaming(configs[..n], name, i);
      }
    }
  }

  /** A toolset asks about a tool it has if the last entry that names the tool says
      so, or says nothing and the toolset's default does; with neither, it does not. */
  lemma AsksExactly(tool: Declared, name: string)
    requires tool.Toolset?
    ensures Asks(tool, name) ==>
              (tool.kind == "agent_toolset_20260401"
               && name in ["execute", "ls", "read_file", "write_file", "edit_file", "glob", "grep", "write_todos"])
              || (tool.kind == "web_toolset_20260401" && name in ["web_fetch", "web_search"])
    ensures (tool.kind == "agent_toolset_20260401"
             && name in ["execute", "ls", "read_file", "write_file", "edit_file", "glob", "grep", "write_todos"])
            || (tool.kind == "web_toolset_20260401" && name in ["web_fetch", "web_search"]) ==>
              (Asks(tool, name) <==>
               (exists i: nat :: LastNaming(tool.configs, name, i) && tool.configs[i].policy == Some(AlwaysAsk))
               || (tool.defaultPolicy == Some(AlwaysAsk)
                   && forall i: nat :: LastNaming(tool.configs, name, i) ==> tool.configs[i].policy.None?))
  {
    ResolvedByLast(tool.configs, name, PolicyOr(tool.defaultPolicy, AlwaysAllow));
    KindsDiffer();
    if i: nat :| LastNaming(tool.configs, name, i) {
      assert forall j: nat :: LastNaming(tool.configs, name, j) ==> j == i;
    }
  }

  lemma KindsDiffer()
    ensures "agent_toolset_20260401" != "web_toolset_20260401"
  {
    assert "agent_toolset_20260401"[0] != "web_toolset_20260401"[0];
  }

  /** One toolset's policies, entry by entry. */
  method ResolveToolset(tool: Declared) returns (resolved: map<string, Policy>)
    requires tool.Toolset?
    ensures forall name :: name in resolved <==> name in ToolNames(tool.kind)
    ensures forall name :: name in resolved ==>
              resolved[name] == Resolved(tool.configs, name, PolicyOr(tool.defaultPolicy, AlwaysAllow))
  {
    var names := ToolNames(tool.kind);
    var default := PolicyOr(tool.defaultPolicy, AlwaysAllow);
    resolved := map name | name in names :: default;
    var i := 0;
    while i < |tool.configs|
      invariant 0 <= i <= |tool.configs|
      invariant forall name :: name in resolved <==> name in names
      invariant forall name :: name in resolved ==> resolved[name] == Resolved(tool.configs[..i], name, default)
    {
      var entry := tool.configs[i];
      assert tool.configs[..i + 1][..i] == tool.configs[..i];
      if entry.name in names {
        resolved := resolved[entry.name := PolicyOr(entry.policy, default)];
      }
      i := i + 1;
    }
    assert tool.configs[..i] == tool.configs;
  }

  ghost predicate SomeAsk(tools: seq<Declared>, name: string) {
    exists tool :: tool in tools && Asks(tool, name)
  }

  lemma SomeAskStep(tools: seq<Declared>, i: nat)
    requires i < |tools|
    ensures forall name :: SomeAsk(tools[..i + 1], name) <==> SomeAsk(tools[..i], name) || Asks(tools[i], name)
  {
    assert tools[..i + 1] == tools[..i] + [tools[i]];
    assert tools[i] in tools[..i + 1];
  }

  /** A native tool needs a decision if and only if some declared toolset asks:
      one toolset's asking is never undone by another's allowing. */
  method ResolveToolInterrupts(tools: seq<Declared>) returns (interruptOn: Interrupts)
    ensures forall name :: name in interruptOn <==> SomeAsk(tools, name)
    ensures forall name :: name in interruptOn ==> interruptOn[name] == {Approves, Rejects}
  {
    interruptOn := map[];
    var i := 0;
    while i < |tools|
      invariant 0 <= i <= |tools|
      invariant forall name :: name in interruptOn <==> SomeAsk(tools[..i], name)
      invariant forall name :: name in interruptOn ==> interruptOn[name] == NATIVE
    {
      SomeAskStep(tools, i);
      if tools[i].Toolset? {
        var resolved := ResolveToolset(tools[i]);
        interruptOn := interruptOn + map name | name in resolved && resolved[name].AlwaysAsk? :: NATIVE;
      }
      i := i + 1;
    }
    assert tools[..i] == tools;
  }

  /** Custom tools always wait: the client is the only one who can run them. */
  function WithCustom(interruptOn: Interrupts, tools: seq<Declared>): Interrupts {
    if tools == [] then interruptOn
    else
      var before := WithCustom(interruptOn, tools[..|tools| - 1]);
      var last := tools[|tools| - 1];
      if last.CustomTool? then before[last.name := CUSTOM] else before
  }

  lemma {:induction false} CustomAlwaysWaits(interruptOn: Interrupts, tools: seq<Declared>, name: string)
    ensures CustomTool(name) in tools ==> name in WithCustom(interruptOn, tools) && WithCustom(interruptOn, tools)[name] == {Responds, Rejects}
    ensures CustomTool(name) !in tools ==>
              (name in WithCustom(interruptOn, tools) <==> name in interruptOn)
              && (name in interruptOn ==> WithCustom(interruptOn, tools)[name] == interruptOn[name])
  {
    if tools != [] {
      CustomAlwaysWaits(interruptOn, tools[..|tools| - 1], name);
      assert tools == tools[..|tools| - 1] + [tools[|tools| - 1]];
    }
  }

  // --- what the graph waits for -----------------------------------------------

  datatype Call = Call(id: string, name: string)

  datatype Message = Ai(calls: seq<Call>) | NotAi

  datatype Error = NothingPending | CannotAnswer | CannotStart

  function LastAi(messages: seq<Message>): Option<seq<Call>> {
    if messages == [] then None
    else if messages[|messages| - 1].Ai? then Some(messages[|messages| - 1].calls)
    else LastAi(messages[..|messages| - 1])
  }

  function Waiting(calls: seq<Call>, interruptOn: Interrupts): (pending: seq<Call>)
    ensures forall call :: call in pending ==> call.name in interruptOn
  {
    if calls == [] then []
    else if calls[0].name in interruptOn then [calls[0]] + Waiting(calls[1..], interruptOn)
    else Waiting(calls[1..], interruptOn)
  }

  /** The places in a message, from `k` on, of the calls that must be asked about:
      every one, and in the order of the message. */
  predicate AskedFrom(calls: seq<Call>, interruptOn: Interrupts, k: nat, at: seq<nat>) {
    && (forall i :: 0 <= i < |at| ==> k <= at[i] < |calls| && calls[at[i]].name in interruptOn)
    && (forall i, j :: 0 <= i < j < |at| ==> at[i] < at[j])
    && (forall n :: k <= n < |calls| && calls[n].name in interruptOn ==> n in at)
  }

  predicate AskedAt(calls: seq<Call>, interruptOn: Interrupts, at: seq<nat>) {
    AskedFrom(calls, interruptOn, 0, at)
  }

  lemma NextAsked(calls: seq<Call>, interruptOn: Interrupts, k: nat, at: seq<nat>)
    requires k < |calls| && AskedFrom(calls, interruptOn, k, at)
    ensures calls[k].name in interruptOn ==>
              at != [] && at[0] == k && AskedFrom(calls, interruptOn, k + 1, at[1..])
    ensures calls[k].name !in interruptOn ==> AskedFrom(calls, interruptOn, k + 1, at)
  {
    if calls[k].name in interruptOn {
      assert k in at && at[0] == k;
      assert at == [k] + at[1..];
    }
  }

  lemma {:induction false} WaitingFrom(calls: seq<Call>, interruptOn: Interrupts, k: nat, at: seq<nat>)
    requires k <= |calls| && AskedFrom(calls, interruptOn, k, at)
    ensures |Waiting(calls[k..], interruptOn)| == |at|
    ensures forall i :: 0 <= i < |at| ==> Waiting(calls[k..], interruptOn)[i] == calls[at[i]]
    decreases |calls| - k
  {
    assert at != [] ==> k <= at[0] < |calls|;
    if k < |calls| {
      NextAsked(calls, interruptOn, k, at);
      assert calls[k..][1..] == calls[k + 1..];
      if calls[k].name in interruptOn {
        WaitingFrom(calls, interruptOn, k + 1, at[1..]);
        var pending := Waiting(calls[k + 1..], interruptOn);
        assert Waiting(calls[k..], interruptOn) == [calls[k]] + pending;
        forall i | 0 <= i < |at|
          ensures ([calls[k]] + pending)[i] == calls[at[i]]
        {
          if i > 0 {
            assert at[1..][i - 1] == at[i];
          }
        }
      } else {
        WaitingFrom(calls, interruptOn, k + 1, at);
      }
    }
  }

  /** What is pending is the calls at those places, in that order. */
  lemma WaitingInOrder(calls: seq<Call>, interruptOn: Interrupts, at: seq<nat>)
    requires AskedAt(calls, interruptOn, at)
    ensures |Waiting(calls, interruptOn)| == |at|
    ensures forall i :: 0 <= i < |at| ==> Waiting(calls, interruptOn)[i] == calls[at[i]]
  {
    assert calls[0..] == calls;
    WaitingFrom(calls, interruptOn, 0, at);
  }

  /** Every message has such places. */
  lemma {:induction false} AskedSomewhere(calls: seq<Call>, interruptOn: Interrupts) returns (at: seq<nat>)
    ensures AskedAt(calls, interruptOn, at)
    decreases |calls|
  {
    at := [];
    if calls != [] {
      var n := |calls| - 1;
      at := AskedSomewhere(calls[..n], interruptOn);
      assert forall k :: 0 <= k < n ==> calls[k] == calls[..n][k];
      if calls[n].name in interruptOn {
        at := at + [n];
      }
    }
  }

  function Ids(calls: seq<Call>): seq<string> {
    seq(|calls|, i requires 0 <= i < |calls| => calls[i].id)
  }

  function PendingCalls(messages: seq<Message>, interruptOn: Interrupts): Result<seq<Call>, Error> {
    match LastAi(messages)
    case None => Failure(NothingPending)
    case Some(calls) => if calls == [] then Failure(NothingPending) else Success(Waiting(calls, interruptOn))
  }

  // --- what the client answers ------------------------------------------------

  datatype Event =
    | UserMessage(text: string)
    | UserInterrupt
    | Confirmation(id: string, allow: bool, message: string)
    | CustomResult(id: string, isError: bool, text: string)
    | ToolResult(id: string)

  datatype Decision = Approve | Reject(message: string) | Respond(message: string)

  /** `is_action_result` */
  predicate Answers(e: Event) {
    e.Confirmation? || e.CustomResult? || e.ToolResult?
  }

  function Decide(e: Event): Result<Decision, Error> {
    match e
    case Confirmation(_, allow, message) => Success(if allow then Approve else Reject(message))
    case CustomResult(_, isError, text) => Success(if isError then Reject(text) else Respond(text))
    case _ => Failure(CannotAnswer)
  }

  /** The answers by the id they name; a later one for the same id wins. */
  function AnswersById(events: seq<Event>): map<string, Event> {
    if events == [] then map[]
    else
      var last := events[|events| - 1];
      var before := AnswersById(events[..|events| - 1]);
      if Answers(last) then before[last.id := last] else before
  }

  function Decisions(pending: seq<Call>, answers: map<string, Event>): Result<seq<Decision>, Error> {
    if pending == [] then Success([])
    else if pending[0].id !in answers then Decisions(pending[1..], answers)
    else match Decide(answers[pending[0].id])
      case Failure(e) => Failure(e)
      case Success(d) =>
        match Decisions(pending[1..], answers)
        case Failure(e) => Failure(e)
        case Success(ds) => Success([d] + ds)
  }

  function BuildResume(messages: seq<Message>, events: seq<Event>, interruptOn: Interrupts): Result<seq<Decision>, Error> {
    match PendingCalls(messages, interruptOn)
    case Failure(e) => Failure(e)
    case Success(pending) => Decisions(pending, AnswersById(events))
  }

  // --- order does not matter, position is right -------------------------------

  predicate DistinctIds(events: seq<Event>) {
    forall i, j :: 0 <= i < j < |events| && Answers(events[i]) && Answers(events[j]) ==> events[i].id != events[j].id
  }

  lemma {:induction false} AnswersByIdExact(events: seq<Event>, id: string)
    requires DistinctIds(events)
    ensures id in AnswersById(events) ==>
              var e := AnswersById(events)[id]; e in events && Answers(e) && e.id == id
    ensures forall e :: e in events && Answers(e) && e.id == id ==> id in AnswersById(events) && AnswersById(events)[id] == e
  {
    if events != [] {
      var n := |events| - 1;
      assert events == events[..n] + [events[n]];
      AnswersByIdExact(events[..n], id);
    }
  }

  /** A client may send a batch of answers in any order at all. */
  lemma ResumeIgnoresOrder(messages: seq<Message>, events: seq<Event>, shuffled: seq<Event>, interruptOn: Interrupts)
    requires DistinctIds(events) && multiset(events) == multiset(shuffled)
    ensures BuildResume(messages, events, interruptOn) == BuildResume(messages, shuffled, interruptOn)
  {
    DistinctUnderShuffle(events, shuffled);
    var a, b := AnswersById(events), AnswersById(shuffled);
    assert forall e :: e in events <==> e in shuffled by {
      assert forall e :: e in events <==> e in multiset(events);
      assert forall e :: e in shuffled <==> e in multiset(shuffled);
    }
    forall id
      ensures id in a <==> id in b
      ensures id in a ==> a[id] == b[id]
    {
      AnswersByIdExact(events, id);
      AnswersByIdExact(shuffled, id);
    }
    assert a == b;
  }

  lemma DistinctUnderShuffle(events: seq<Event>, shuffled: seq<Event>)
    requires DistinctIds(events) && multiset(events) == multiset(shuffled)
    ensures DistinctIds(shuffled)
  {
    forall i, j | 0 <= i < j < |shuffled| && Answers(shuffled[i]) && Answers(shuffled[j])
      ensures shuffled[i].id != shuffled[j].id
    {
      if shuffled[i].id == shuffled[j].id {
        var e, f := shuffled[i], shuffled[j];
        assert e in multiset(shuffled) && f in multiset(shuffled);
        var k :| 0 <= k < |events| && events[k] == e;
        var l :| 0 <= l < |events| && events[l] == f;
        assert k == l;
        TwiceMeansTwo(shuffled, i, j);
        OnceMeansOne(events, k);
        assert false;
      }
    }
  }

  lemma TwiceMeansTwo(events: seq<Event>, i: nat, j: nat)
    requires i < j < |events| && events[i] == events[j]
    ensures multiset(events)[events[i]] >= 2
  {
    assert events == events[..j] + events[j..];
    assert events[..j][i] == events[i] && events[j..][0] == events[i];
    assert events[i] in multiset(events[..j]) && events[i] in multiset(events[j..]);
  }

  lemma OnceMeansOne(events: seq<Event>, k: nat)
    requires k < |events| && DistinctIds(events) && Answers(events[k])
    ensures multiset(events)[events[k]] == 1
  {
    var e := events[k];
    assert events == events[..k] + [e] + events[k + 1..];
    assert e !in events[..k] && e !in events[k + 1..];
    assert e !in multiset(events[..k]) && e !in multiset(events[k + 1..]);
  }

  predicate Complete(pending: seq<Call>, answers: map<string, Event>) {
    forall i :: 0 <= i < |pending| ==> pending[i].id in answers
  }

  lemma {:induction false} DecidedInTurn(pending: seq<Call>, answers: map<string, Event>)
    requires Decisions(pending, answers).Success?
    ensures var ds := Decisions(pending, answers).value;
            && |ds| <= |pending|
            && (|ds| == |pending| <==> Complete(pending, answers))
            && (Complete(pending, answers) ==>
                forall i :: 0 <= i < |pending| ==> Decide(answers[pending[i].id]) == Success(ds[i]))
  {
    if pending != [] {
      DecidedInTurn(pending[1..], answers);
      var ds := Decisions(pending, answers).value;
      if pending[0].id in answers {
        var rest := Decisions(pending[1..], answers).value;
        assert ds[1..] == rest;
        assert Complete(pending, answers) <==> Complete(pending[1..], answers);
        if Complete(pending, answers) {
          forall i | 0 <= i < |pending|
            ensures Decide(answers[pending[i].id]) == Success(ds[i])
          {
            if i > 0 {
              assert pending[1..][i - 1] == pending[i] && rest[i - 1] == ds[i];
            }
          }
        }
      }
    }
  }

  /** A batch that can be decided yields one decision for each call of the last
      message that must be asked about if and only if it answers them all; and then
      decision `i` is the answer to the `i`-th of those calls, as the message has them. */
  lemma DecisionsAligned(messages: seq<Message>, events: seq<Event>, interruptOn: Interrupts, at: seq<nat>)
    requires BuildResume(messages, events, interruptOn).Success?
    requires AskedAt(LastAi(messages).value, interruptOn, at)
    ensures var calls, answers := LastAi(messages).value, AnswersById(events);
            var ds := BuildResume(messages, events, interruptOn).value;
            && |ds| <= |at|
            && (|ds| == |at| <==> forall i :: 0 <= i < |at| ==> calls[at[i]].id in answers)
            && (|ds| == |at| ==>
                  forall i :: 0 <= i < |at| ==>
                    calls[at[i]].id in answers && Decide(answers[calls[at[i]].id]) == Success(ds[i])
                    && match answers[calls[at[i]].id]
                       case Confirmation(_, allow, message) => ds[i] == if allow then Approve else Reject(message)
                       case CustomResult(_, isError, text) => ds[i] == if isError then Reject(text) else Respond(text)
                       case _ => false)
  {
    var calls, answers := LastAi(messages).value, AnswersById(events);
    var pending := Waiting(calls, interruptOn);
    WaitingInOrder(calls, interruptOn, at);
    DecidedInTurn(pending, answers);
    assert Complete(pending, answers) <==> forall i :: 0 <= i < |at| ==> calls[at[i]].id in answers;
  }

  predicate Names(e: Event, id: string) {
    match e
    case Confirmation(i, _, _) => i == id
    case CustomResult(i, _, _) => i == id
    case ToolResult(i) => i == id
    case _ => false
  }

  /** The answer for an id is the last event that names it. */
  lemma {:induction false} LastAnswer(events: seq<Event>, id: string, k: nat)
    requires k < |events| && Names(events[k], id) && forall j :: k < j < |events| ==> !Names(events[j], id)
    ensures id in AnswersById(events) && AnswersById(events)[id] == events[k]
  {
    if k < |events| - 1 {
      LastAnswer(events[..|events| - 1], id, k);
    }
  }

  lemma {:induction false} LastAiIs(messages: seq<Message>, k: nat)
    requires k < |messages| && messages[k].Ai? && forall j :: k < j < |messages| ==> messages[j].NotAi?
    ensures LastAi(messages) == Some(messages[k].calls)
  {
    if k < |messages| - 1 {
      LastAiIs(messages[..|messages| - 1], k);
    }
  }

  /** One of these calls is answered with a tool result. */
  ghost predicate ToolResultGiven(calls: seq<Call>, answers: map<string, Event>) {
    exists call :: call in calls && call.id in answers && answers[call.id].ToolResult?
  }

  lemma {:induction false} UndecidedIffToolResult(pending: seq<Call>, answers: map<string, Event>)
    requires forall id :: id in answers ==> Answers(answers[id])
    ensures Decisions(pending, answers).Failure? <==> ToolResultGiven(pending, answers)
    ensures Decisions(pending, answers).Failure? ==> Decisions(pending, answers).error.CannotAnswer?
  {
    if pending != [] {
      UndecidedIffToolResult(pending[1..], answers);
      assert pending == [pending[0]] + pending[1..];
    }
  }

  /** A batch is refused for having nothing to answer if no message is the model's,
      or its last one has no calls; and otherwise if and only if it answers a call
      that waits with a tool result. */
  lemma ResumeRefused(messages: seq<Message>, events: seq<Event>, interruptOn: Interrupts)
    ensures LastAi(messages) == None || LastAi(messages) == Some([]) ==>
              BuildResume(messages, events, interruptOn).Failure?
              && BuildResume(messages, events, interruptOn).error.NothingPending?
    ensures LastAi(messages).Some? && LastAi(messages).value != [] ==>
              (BuildResume(messages, events, interruptOn).Failure?
               <==> ToolResultGiven(Waiting(LastAi(messages).value, interruptOn), AnswersById(events)))
              && (BuildResume(messages, events, interruptOn).Failure? ==>
                    BuildResume(messages, events, interruptOn).error.CannotAnswer?)
  {
    if LastAi(messages).Some? {
      forall id | id in AnswersById(events)
        ensures Answers(AnswersById(events)[id])
      {
        AnswersByIdFrom(events, id);
      }
      UndecidedIffToolResult(Waiting(LastAi(messages).value, interruptOn), AnswersById(events));
    }
  }

  // --- what the middleware makes of it ------------------------------------------

  function KindOf(d: Decision): DecisionKind {
    match d case Approve => Approves case Reject(_) => Rejects case Respond(_) => Responds
  }

  /** It counts the decisions, and refuses one its call does not allow. */
  predicate Accepted(pending: seq<Call>, decisions: seq<Decision>, interruptOn: Interrupts) {
    && |decisions| == |pending|
    && forall i :: 0 <= i < |pending| ==>
         pending[i].name in interruptOn && KindOf(decisions[i]) in interruptOn[pending[i].name]
  }

  /** The answer suits the tool: an approval is for a tool of ours, a result for
      one of the client's, and either may be turned down. */
  predicate Suits(e: Event, allowed: set<DecisionKind>) {
    match e
    case Confirmation(_, allow, _) => allow ==> Approves in allowed
    case CustomResult(_, isError, _) => !isError ==> Responds in allowed
    case _ => false
  }

  lemma SuitsByKind(e: Event, d: Decision, allowed: set<DecisionKind>)
    requires Decide(e) == Success(d) && (allowed == NATIVE || allowed == CUSTOM)
    ensures KindOf(d) in allowed <==> Suits(e, allowed)
  {
  }

  /** What the middleware asks of the decisions, against the message itself: one for
      each call that must be asked about, in the order of the message, of a kind its
      call allows. */
  lemma AcceptedInOrder(calls: seq<Call>, decisions: seq<Decision>, interruptOn: Interrupts, at: seq<nat>)
    requires AskedAt(calls, interruptOn, at)
    ensures Accepted(Waiting(calls, interruptOn), decisions, interruptOn)
       <==> |decisions| == |at|
            && forall i :: 0 <= i < |at| ==> KindOf(decisions[i]) in interruptOn[calls[at[i]].name]
  {
    WaitingInOrder(calls, interruptOn, at);
  }

  /** A turn resumes if and only if every call of the last message that must be asked
      about has an answer that suits it. */
  lemma ResumeAccepted(messages: seq<Message>, events: seq<Event>, interruptOn: Interrupts)
    requires forall name :: name in interruptOn ==> interruptOn[name] == NATIVE || interruptOn[name] == CUSTOM
    requires BuildResume(messages, events, interruptOn).Success?
    ensures var calls, answers := LastAi(messages).value, AnswersById(events);
            var decisions := BuildResume(messages, events, interruptOn).value;
            (Accepted(Waiting(calls, interruptOn), decisions, interruptOn)
             <==> (forall k :: 0 <= k < |calls| && calls[k].name in interruptOn ==>
                     calls[k].id in answers && Suits(answers[calls[k].id], interruptOn[calls[k].name])))
  {
    var calls, answers := LastAi(messages).value, AnswersById(events);
    var decisions := BuildResume(messages, events, interruptOn).value;
    var at := AskedSomewhere(calls, interruptOn);
    DecisionsAligned(messages, events, interruptOn, at);
    AcceptedInOrder(calls, decisions, interruptOn, at);
    if |decisions| == |at| {
      forall i | 0 <= i < |at|
        ensures KindOf(decisions[i]) in interruptOn[calls[at[i]].name]
           <==> Suits(answers[calls[at[i]].id], interruptOn[calls[at[i]].name])
      {
        SuitsByKind(answers[calls[at[i]].id], decisions[i], interruptOn[calls[at[i]].name]);
      }
    }
  }

  // --- what the client is told waits ------------------------------------------------

  /** Why the turn ended, as the idle event says and the row keeps. */
  datatype Stop = EndTurn | RequiresAction(ids: seq<string>)

  function StopReason(interrupted: bool, messages: seq<Message>, interruptOn: Interrupts): Result<Stop, Error> {
    if !interrupted then Success(EndTurn)
    else match PendingCalls(messages, interruptOn)
      case Failure(e) => Failure(e)
      case Success(pending) => Success(RequiresAction(Ids(pending)))
  }

  /** The last message of the model has a call that must be asked about, with this id. */
  ghost predicate Awaits(messages: seq<Message>, interruptOn: Interrupts, id: string) {
    LastAi(messages).Some?
    && exists call :: call in LastAi(messages).value && call.name in interruptOn && call.id == id
  }

  lemma {:induction false} WaitingExact(calls: seq<Call>, interruptOn: Interrupts, call: Call)
    ensures call in Waiting(calls, interruptOn) <==> call in calls && call.name in interruptOn
  {
    if calls != [] {
      WaitingExact(calls[1..], interruptOn, call);
      assert calls == [calls[0]] + calls[1..];
    }
  }

  /** It lists them in the order of the message. */
  lemma StopListsInOrder(messages: seq<Message>, interruptOn: Interrupts, ids: seq<string>, at: seq<nat>)
    requires StopReason(true, messages, interruptOn) == Success(RequiresAction(ids))
    requires AskedAt(LastAi(messages).value, interruptOn, at)
    ensures |ids| == |at|
    ensures forall i :: 0 <= i < |ids| ==> ids[i] == LastAi(messages).value[at[i]].id
  {
    WaitingInOrder(LastAi(messages).value, interruptOn, at);
  }

  /** The idle event lists exactly the ids that wait, and decision `i` of the next
      turn is the answer to the `i`-th of them. */
  lemma StopListsWhatWaits(messages: seq<Message>, interruptOn: Interrupts, ids: seq<string>, events: seq<Event>)
    requires StopReason(true, messages, interruptOn) == Success(RequiresAction(ids))
    ensures forall id :: id in ids <==> Awaits(messages, interruptOn, id)
    ensures var resumed := BuildResume(messages, events, interruptOn);
            resumed.Success? ==>
              && (|resumed.value| == |ids| <==> forall id :: id in ids ==> id in AnswersById(events))
              && (|resumed.value| == |ids| ==>
                    forall i :: 0 <= i < |ids| ==>
                      ids[i] in AnswersById(events) && Decide(AnswersById(events)[ids[i]]) == Success(resumed.value[i]))
  {
    var calls := LastAi(messages).value;
    var pending := Waiting(calls, interruptOn);
    forall id
      ensures id in ids <==> Awaits(messages, interruptOn, id)
    {
      if id in ids {
        var i :| 0 <= i < |pending| && pending[i].id == id;
        WaitingExact(calls, interruptOn, pending[i]);
      }
      if Awaits(messages, interruptOn, id) {
        var call :| call in calls && call.name in interruptOn && call.id == id;
        WaitingExact(calls, interruptOn, call);
        var i :| 0 <= i < |pending| && pending[i] == call;
        assert ids[i] == id;
      }
    }
    if BuildResume(messages, events, interruptOn).Success? {
      DecidedInTurn(pending, AnswersById(events));
      assert forall i :: 0 <= i < |ids| ==> ids[i] == pending[i].id && ids[i] in ids;
    }
  }

  /** One answer for each listed id, in the order of the list. */
  predicate AnswersEach(given: seq<Event>, ids: seq<string>) {
    |given| == |ids| && forall i :: 0 <= i < |ids| ==> (given[i].Confirmation? || given[i].CustomResult?) && given[i].id == ids[i]
  }

  /** No two answers that differ are under one id. */
  predicate Agree(given: seq<Event>, ids: seq<string>)
    requires |given| == |ids|
  {
    forall i, j :: 0 <= i < |ids| && 0 <= j < |ids| && ids[i] == ids[j] ==> Decide(given[i]) == Decide(given[j])
  }

  /** The last place of an id in the list. */
  function LastWith(ids: seq<string>, id: string): (k: nat)
    requires id in ids
    ensures k < |ids| && ids[k] == id && forall j :: k < j < |ids| ==> ids[j] != id
  {
    if ids[|ids| - 1] == id then |ids| - 1 else LastWith(ids[..|ids| - 1], id)
  }

  lemma {:induction false} LastAnswerWins(given: seq<Event>, ids: seq<string>, k: nat)
    requires AnswersEach(given, ids) && k < |ids| && forall j :: k < j < |ids| ==> ids[j] != ids[k]
    ensures ids[k] in AnswersById(given) && AnswersById(given)[ids[k]] == given[k]
  {
    var n := |ids| - 1;
    if k < n {
      LastAnswerWins(given[..n], ids[..n], k);
    }
  }

  predicate Distinct(ids: seq<string>) {
    forall i, j :: 0 <= i < j < |ids| ==> ids[i] != ids[j]
  }

  /** For each listed id, the last answer given under it. */
  function Used(given: seq<Event>, ids: seq<string>): (used: seq<Event>)
    requires |given| == |ids|
    ensures |used| == |ids| && (Distinct(ids) ==> used == given)
  {
    seq(|ids|, i requires 0 <= i < |ids| => given[LastWith(ids, ids[i])])
  }

  lemma AnswersUsed(given: seq<Event>, ids: seq<string>)
    requires AnswersEach(given, ids)
    ensures forall i :: 0 <= i < |ids| ==> ids[i] in AnswersById(given) && AnswersById(given)[ids[i]] == Used(given, ids)[i]
  {
    forall i | 0 <= i < |ids|
      ensures ids[i] in AnswersById(given) && AnswersById(given)[ids[i]] == Used(given, ids)[i]
    {
      LastAnswerWins(given, ids, LastWith(ids, ids[i]));
    }
  }

  predicate AllSuit(events: seq<Event>, pending: seq<Call>, interruptOn: Interrupts) {
    |events| == |pending|
    && forall i :: 0 <= i < |pending| ==> pending[i].name in interruptOn && Suits(events[i], interruptOn[pending[i].name])
  }

  lemma AcceptedIffSuit(events: seq<Event>, decisions: seq<Decision>, pending: seq<Call>, interruptOn: Interrupts)
    requires forall name :: name in interruptOn ==> interruptOn[name] == NATIVE || interruptOn[name] == CUSTOM
    requires |events| == |decisions| == |pending|
    requires forall i :: 0 <= i < |events| ==> Decide(events[i]) == Success(decisions[i])
    ensures Accepted(pending, decisions, interruptOn) <==> AllSuit(events, pending, interruptOn)
  {
    forall i | 0 <= i < |pending| && pending[i].name in interruptOn
      ensures KindOf(decisions[i]) in interruptOn[pending[i].name] <==> Suits(events[i], interruptOn[pending[i].name])
    {
      SuitsByKind(events[i], decisions[i], interruptOn[pending[i].name]);
    }
  }

  /** The answer each call gets is the last one given under its id. So each gets
      the one that was given for it, if and only if calls that share an id were
      given the same: as when no two do. */
  lemma AnswersLandAsGiven(messages: seq<Message>, interruptOn: Interrupts, ids: seq<string>, given: seq<Event>)
    requires StopReason(true, messages, interruptOn) == Success(RequiresAction(ids)) && AnswersEach(given, ids)
    ensures var resumed := BuildResume(messages, given, interruptOn);
            && resumed.Success? && |resumed.value| == |ids|
            && (forall i :: 0 <= i < |ids| ==> Success(resumed.value[i]) == Decide(Used(given, ids)[i]))
            && ((forall i :: 0 <= i < |ids| ==> Success(resumed.value[i]) == Decide(given[i])) <==> Agree(given, ids))
    ensures Distinct(ids) ==> Agree(given, ids)
  {
    var answers := AnswersById(given);
    forall id | id in answers
      ensures answers[id].Confirmation? || answers[id].CustomResult?
    {
      AnswersByIdFrom(given, id);
    }
    ConfirmationsDecide(Waiting(LastAi(messages).value, interruptOn), answers);
    AnswersUsed(given, ids);
    StopListsWhatWaits(messages, interruptOn, ids, given);
  }

  /** So a batch that answers every listed id is accepted if and only if the last
      answer under each id is of a kind that every call with that id allows; and
      with no two calls under one id, if and only if each answer suits its call. */
  lemma ListedAnswersAccepted(messages: seq<Message>, interruptOn: Interrupts, ids: seq<string>, given: seq<Event>)
    requires forall name :: name in interruptOn ==> interruptOn[name] == NATIVE || interruptOn[name] == CUSTOM
    requires StopReason(true, messages, interruptOn) == Success(RequiresAction(ids)) && AnswersEach(given, ids)
    ensures var pending, resumed := Waiting(LastAi(messages).value, interruptOn), BuildResume(messages, given, interruptOn);
            && resumed.Success? && |pending| == |ids|
            && (Accepted(pending, resumed.value, interruptOn) <==> AllSuit(Used(given, ids), pending, interruptOn))
            && (Distinct(ids) ==>
                 (Accepted(pending, resumed.value, interruptOn) <==> AllSuit(given, pending, interruptOn)))
  {
    AnswersLandAsGiven(messages, interruptOn, ids, given);
    var pending := Waiting(LastAi(messages).value, interruptOn);
    AcceptedIffSuit(Used(given, ids), BuildResume(messages, given, interruptOn).value, pending, interruptOn);
  }

  /** Two calls under one id, one to be allowed and one refused: both are. */
  lemma SharedIdSharesAnswer()
    ensures var call := Call("c", "ls");
            var interruptOn := map["ls" := NATIVE];
            var given := [Confirmation("c", false, "no"), Confirmation("c", true, "")];
            && StopReason(true, [Ai([call, call])], interruptOn) == Success(RequiresAction(["c", "c"]))
            && BuildResume([Ai([call, call])], given, interruptOn) == Success([Approve, Approve])
  {
    var call, interruptOn := Call("c", "ls"), map["ls" := NATIVE];
    var no, yes := Confirmation("c", false, "no"), Confirmation("c", true, "");
    assert [no, yes][..1] == [no] && [no][..0] == [];
    assert AnswersById([no]) == map["c" := no];
    assert AnswersById([no, yes]) == map["c" := yes];
    assert [call, call][1..] == [call] && [call][1..] == [];
    assert Waiting([call], interruptOn) == [call];
    assert Waiting([call, call], interruptOn) == [call, call];
    assert Ids([call, call]) == ["c", "c"];
    assert Decisions([], map["c" := yes]) == Success([]);
    assert [Approve] + [] == [Approve];
    assert Decisions([call], map["c" := yes]) == Success([Approve]);
    assert [Approve] + [Approve] == [Approve, Approve];
  }

  // --- what the tool-use events say ------------------------------------------------

  /** A tool-use event: custom, or native with the permission it evaluated to. */
  datatype Notice = CustomUse(id: string) | ToolUse(id: string, ask: bool)

  predicate SaysWaiting(n: Notice, id: string) {
    n == CustomUse(id) || n == ToolUse(id, true)
  }

  function NoticeOf(call: Call, custom: set<string>, interruptOn: Interrupts): Notice {
    if call.name in custom then CustomUse(call.id) else ToolUse(call.id, call.name in interruptOn)
  }

  /** The calls of a message not announced before, each id once. */
  function Fresh(calls: seq<Call>, announced: set<string>): seq<Call> {
    if calls == [] then []
    else if calls[0].id in announced then Fresh(calls[1..], announced)
    else [calls[0]] + Fresh(calls[1..], announced + {calls[0].id})
  }

  /** One tool-use event for each call, in order: a custom one for a tool of the
      client's, and for one of ours whether it is asked about. */
  predicate Announces(notices: seq<Notice>, calls: seq<Call>, custom: set<string>, interruptOn: Interrupts) {
    && |notices| == |calls|
    && forall i :: 0 <= i < |calls| ==>
         notices[i] == if calls[i].name in custom then CustomUse(calls[i].id)
                       else ToolUse(calls[i].id, calls[i].name in interruptOn)
  }

  lemma AnnouncesBoth(a: seq<Notice>, b: seq<Notice>, s: seq<Call>, t: seq<Call>, custom: set<string>, interruptOn: Interrupts)
    requires Announces(a, s, custom, interruptOn) && Announces(b, t, custom, interruptOn)
    ensures Announces(a + b, s + t, custom, interruptOn)
  {
  }

  method Translate(calls: seq<Call>, custom: set<string>, interruptOn: Interrupts, seen: set<string>)
    returns (notices: seq<Notice>, announced: set<string>)
    ensures Announces(notices, Fresh(calls, seen), custom, interruptOn)
    ensures announced == seen + set call | call in calls :: call.id
  {
    notices, announced := [], seen;
    ghost var told: seq<Call> := [];
    var i := 0;
    while i < |calls|
      invariant 0 <= i <= |calls|
      invariant told + Fresh(calls[i..], announced) == Fresh(calls, seen)
      invariant Announces(notices, told, custom, interruptOn)
      invariant announced == seen + set call | call in calls[..i] :: call.id
    {
      var call := calls[i];
      assert calls[i..][0] == call && calls[i..][1..] == calls[i + 1..];
      assert calls[..i + 1] == calls[..i] + [call];
      if call.id !in announced {
        announced := announced + {call.id};
        notices := notices + [NoticeOf(call, custom, interruptOn)];
        told := told + [call];
      }
      i := i + 1;
    }
    assert calls[..i] == calls;
  }

  /** The first call of a message that carries this id. */
  function FirstWith(calls: seq<Call>, id: string): Option<Call> {
    if calls == [] then None
    else if calls[0].id == id then Some(calls[0])
    else FirstWith(calls[1..], id)
  }

  lemma {:induction false} FreshIsFirst(calls: seq<Call>, announced: set<string>, call: Call)
    ensures call in Fresh(calls, announced) <==> call.id !in announced && FirstWith(calls, call.id) == Some(call)
    decreases |calls|
  {
    if calls != [] {
      if calls[0].id in announced {
        FreshIsFirst(calls[1..], announced, call);
      } else {
        FreshIsFirst(calls[1..], announced + {calls[0].id}, call);
      }
    }
  }

  lemma {:induction false} FirstWithIsCall(calls: seq<Call>, id: string)
    ensures FirstWith(calls, id).Some? ==> FirstWith(calls, id).value in calls && FirstWith(calls, id).value.id == id
    ensures FirstWith(calls, id).None? ==> forall call :: call in calls ==> call.id != id
  {
    if calls != [] {
      FirstWithIsCall(calls[1..], id);
      assert calls == [calls[0]] + calls[1..];
    }
  }

  // --- over a turn: one `announced` set for all its messages -----------------------

  /** The calls of a turn's messages, in order. */
  function AllCalls(messages: seq<seq<Call>>): seq<Call> {
    if messages == [] then [] else AllCalls(messages[..|messages| - 1]) + messages[|messages| - 1]
  }

  function CallIds(calls: seq<Call>): set<string> {
    set call | call in calls :: call.id
  }

  lemma SeenAfter(a: seq<Call>, announced: set<string>, seen: set<string>)
    requires a != [] && seen == if a[0].id in announced then announced else announced + {a[0].id}
    ensures seen + CallIds(a[1..]) == announced + CallIds(a)
  {
    assert a == [a[0]] + a[1..];
  }

  lemma FirstOfConcat(a: seq<Call>, b: seq<Call>)
    requires a != []
    ensures a + b != [] && (a + b)[0] == a[0] && (a + b)[1..] == a[1..] + b
  {
  }

  lemma {:induction false} FreshConcat(a: seq<Call>, b: seq<Call>, announced: set<string>)
    ensures Fresh(a + b, announced) == Fresh(a, announced) + Fresh(b, announced + CallIds(a))
    decreases |a|
  {
    if a == [] {
      assert a + b == b;
      assert announced + CallIds([]) == announced;
    } else {
      var seen := if a[0].id in announced then announced else announced + {a[0].id};
      FreshConcat(a[1..], b, seen);
      SeenAfter(a, announced, seen);
      FirstOfConcat(a, b);
      var told, more := Fresh(a[1..], seen), Fresh(b, announced + CallIds(a));
      assert [a[0]] + (told + more) == [a[0]] + told + more;
    }
  }

  lemma OneMessageMore(messages: seq<seq<Call>>, i: nat)
    requires i < |messages|
    ensures var before, now := AllCalls(messages[..i]), AllCalls(messages[..i + 1]);
            && Fresh(now, {}) == Fresh(before, {}) + Fresh(messages[i], CallIds(before))
            && CallIds(now) == CallIds(before) + set call | call in messages[i] :: call.id
  {
    var before := AllCalls(messages[..i]);
    assert messages[..i + 1][..i] == messages[..i];
    FreshConcat(before, messages[i], {});
    assert {} + CallIds(before) == CallIds(before);
  }

  /** The tool-use events of a whole turn: of all its calls, the first with each id,
      as that call is. */
  method TranslateTurn(messages: seq<seq<Call>>, custom: set<string>, interruptOn: Interrupts)
    returns (notices: seq<Notice>)
    ensures Announces(notices, Fresh(AllCalls(messages), {}), custom, interruptOn)
  {
    notices := [];
    var announced: set<string> := {};
    var i := 0;
    while i < |messages|
      invariant 0 <= i <= |messages|
      invariant announced == CallIds(AllCalls(messages[..i]))
      invariant Announces(notices, Fresh(AllCalls(messages[..i]), {}), custom, interruptOn)
    {
      ghost var before, told := notices, Fresh(AllCalls(messages[..i]), {});
      OneMessageMore(messages, i);
      ghost var untold := Fresh(messages[i], announced);
      var more;
      more, announced := Translate(messages[i], custom, interruptOn, announced);
      AnnouncesBoth(before, more, told, untold, custom, interruptOn);
      notices := notices + more;
      i := i + 1;
    }
    assert messages[..i] == messages;
  }

  /** A tool-use event of this turn says that an id waits. */
  ghost predicate Noticed(messages: seq<seq<Call>>, custom: set<string>, interruptOn: Interrupts, id: string) {
    exists call :: call in Fresh(AllCalls(messages), {}) && SaysWaiting(NoticeOf(call, custom, interruptOn), id)
  }

  /** The graph waits for an answer to it: a call of the turn's last message. */
  ghost predicate Pending(messages: seq<seq<Call>>, interruptOn: Interrupts, id: string)
    requires messages != []
  {
    exists call :: call in Waiting(messages[|messages| - 1], interruptOn) && call.id == id
  }

  /** The turn's first call with this id is one that waits. */
  predicate FirstWaits(messages: seq<seq<Call>>, interruptOn: Interrupts, id: string) {
    var first := FirstWith(AllCalls(messages), id);
    first.Some? && first.value.name in interruptOn
  }

  lemma NoticedIfFirstWaits(messages: seq<seq<Call>>, custom: set<string>, interruptOn: Interrupts, id: string)
    requires forall name :: name in custom ==> name in interruptOn
    ensures Noticed(messages, custom, interruptOn, id) <==> FirstWaits(messages, interruptOn, id)
  {
    var calls := AllCalls(messages);
    FirstWithIsCall(calls, id);
    var first := FirstWith(calls, id);
    if first.Some? {
      FreshIsFirst(calls, {}, first.value);
      assert first.value in Fresh(calls, {});
      assert first.value.name in interruptOn ==> SaysWaiting(NoticeOf(first.value, custom, interruptOn), id);
    }
    if Noticed(messages, custom, interruptOn, id) {
      var call :| call in Fresh(calls, {}) && SaysWaiting(NoticeOf(call, custom, interruptOn), id);
      FreshIsFirst(calls, {}, call);
    }
  }

  /** Over a turn, the idle event lists exactly what waits, whatever the ids are. */
  lemma ListedIsPending(state: seq<Message>, messages: seq<seq<Call>>, interruptOn: Interrupts, ids: seq<string>, id: string)
    requires messages != [] && LastAi(state) == Some(messages[|messages| - 1])
    requires StopReason(true, state, interruptOn) == Success(RequiresAction(ids))
    ensures id in ids <==> Pending(messages, interruptOn, id)
  {
    var pending := Waiting(messages[|messages| - 1], interruptOn);
    if id in ids {
      var i :| 0 <= i < |ids| && ids[i] == id;
      assert pending[i] in pending;
    }
    if call :| call in pending && call.id == id {
      var i :| 0 <= i < |pending| && pending[i] == call;
      assert ids[i] == id;
    }
  }

  lemma InTurn(messages: seq<seq<Call>>, call: Call)
    requires messages != []
    ensures call in AllCalls(messages) <==>
              call in AllCalls(messages[..|messages| - 1]) || call in messages[|messages| - 1]
  {
  }

  /** What waits has a tool-use event that says so, exactly if no earlier call of
      the turn, in this message or one before, has its id and does not wait. What
      such an event says waits does, if the turn did not go past a call that waits,
      which the graph does not. */
  lemma NoticedIffPending(messages: seq<seq<Call>>, custom: set<string>, interruptOn: Interrupts, id: string)
    requires messages != [] && forall name :: name in custom ==> name in interruptOn
    ensures Pending(messages, interruptOn, id) ==>
              (Noticed(messages, custom, interruptOn, id) <==> FirstWaits(messages, interruptOn, id))
    ensures (forall call :: call in AllCalls(messages[..|messages| - 1]) ==> call.name !in interruptOn) ==>
              (Noticed(messages, custom, interruptOn, id) ==> Pending(messages, interruptOn, id))
    ensures Pending(messages, interruptOn, id) ==> FirstWith(AllCalls(messages), id).Some?
  {
    NoticedIfFirstWaits(messages, custom, interruptOn, id);
    var last := messages[|messages| - 1];
    FirstWithIsCall(AllCalls(messages), id);
    if Pending(messages, interruptOn, id) {
      var call :| call in Waiting(last, interruptOn) && call.id == id;
      WaitingExact(last, interruptOn, call);
      InTurn(messages, call);
    }
    var first := FirstWith(AllCalls(messages), id);
    if first.Some? {
      InTurn(messages, first.value);
      WaitingExact(last, interruptOn, first.value);
    }
  }

  /** With the ids of a turn distinct, the tool-use events say exactly what the
      idle event lists. */
  lemma DistinctCallsAgree(messages: seq<seq<Call>>, custom: set<string>, interruptOn: Interrupts, id: string)
    requires messages != [] && forall name :: name in custom ==> name in interruptOn
    requires forall i, j :: 0 <= i < j < |AllCalls(messages)| ==> AllCalls(messages)[i].id != AllCalls(messages)[j].id
    requires forall call :: call in AllCalls(messages[..|messages| - 1]) ==> call.name !in interruptOn
    ensures Noticed(messages, custom, interruptOn, id) <==> Pending(messages, interruptOn, id)
    ensures forall state, ids ::
              LastAi(state) == Some(messages[|messages| - 1])
              && StopReason(true, state, interruptOn) == Success(RequiresAction(ids)) ==>
                (Noticed(messages, custom, interruptOn, id) <==> id in ids)
  {
    NoticedIffPending(messages, custom, interruptOn, id);
    if Pending(messages, interruptOn, id) {
      var last := messages[|messages| - 1];
      var call :| call in Waiting(last, interruptOn) && call.id == id;
      WaitingExact(last, interruptOn, call);
      InTurn(messages, call);
      FirstWithIsCall(AllCalls(messages), id);
    }
    forall state: seq<Message>, ids | LastAi(state) == Some(messages[|messages| - 1])
                                      && StopReason(true, state, interruptOn) == Success(RequiresAction(ids))
      ensures id in ids <==> Pending(messages, interruptOn, id)
    {
      ListedIsPending(state, messages, interruptOn, ids, id);
    }
  }

  /** A call that waits, under an id an earlier message of the turn has used for
      one that does not: its ids are distinct within each message, and the idle
      event lists it, but no tool-use event says what it is that waits. */
  lemma ReusedIdHasNoNotice()
    ensures var messages := [[Call("c", "ls")], [Call("c", "ask_user")]];
            var interruptOn := map["ask_user" := CUSTOM];
            && !Noticed(messages, {"ask_user"}, interruptOn, "c")
            && StopReason(true, [Ai(messages[0]), NotAi, Ai(messages[1])], interruptOn) == Success(RequiresAction(["c"]))
  {
    var first, second := Call("c", "ls"), Call("c", "ask_user");
    var messages, interruptOn := [[first], [second]], map["ask_user" := CUSTOM];
    assert [second][1..] == [] && Waiting([], interruptOn) == [] && [second] + [] == [second];
    assert Waiting([second], interruptOn) == [second];
    assert Ids([second]) == ["c"];
    assert messages[..1] == [[first]] && [[first]][..0] == [];
    assert AllCalls([]) == [];
    assert AllCalls(messages[..1]) == [] + [first];
    assert AllCalls(messages) == ([] + [first]) + [second];
    assert FirstWith(AllCalls(messages), "c") == Some(first);
    assert "ls" != "ask_user" by {
      assert |"ls"| != |"ask_user"|;
    }
    NoticedIfFirstWaits(messages, {"ask_user"}, interruptOn, "c");
  }

  /** A message that comes past again announces nothing. */
  lemma {:induction false} AnnouncedOnce(calls: seq<Call>, announced: set<string>)
    requires forall call :: call in calls ==> call.id in announced
    ensures Fresh(calls, announced) == []
  {
    if calls != [] {
      AnnouncedOnce(calls[1..], announced);
    }
  }

  // --- which batches get this far ---------------------------------------------------

  /** What the request model admits: no tool result, and answers only together. */
  predicate Validated(events: seq<Event>) {
    && events != []
    && (forall e :: e in events ==> !e.ToolResult?)
    && ((exists e :: e in events && Answers(e)) ==> forall e :: e in events ==> Answers(e))
  }

  /** What `send_events` dispatches: an interrupt never gets that far. */
  predicate Dispatched(events: seq<Event>) {
    Validated(events) && forall e :: e in events ==> !e.UserInterrupt?
  }

  function BuildFreshInput(events: seq<Event>): Result<seq<string>, Error> {
    if events == [] then Success([])
    else if !events[0].UserMessage? then Failure(CannotStart)
    else match BuildFreshInput(events[1..])
      case Failure(e) => Failure(e)
      case Success(texts) => Success([events[0].text] + texts)
  }

  lemma {:induction false} FreshInputWhole(events: seq<Event>)
    ensures BuildFreshInput(events).Success? <==> forall i :: 0 <= i < |events| ==> events[i].UserMessage?
    ensures BuildFreshInput(events).Failure? ==> BuildFreshInput(events).error.CannotStart?
    ensures BuildFreshInput(events).Success? ==>
              |BuildFreshInput(events).value| == |events|
              && forall i :: 0 <= i < |events| ==> BuildFreshInput(events).value[i] == events[i].text
  {
    if events != [] {
      FreshInputWhole(events[1..]);
      assert forall i :: 0 < i < |events| ==> events[i] == events[1..][i - 1];
    }
  }

  lemma {:induction false} ConfirmationsDecide(pending: seq<Call>, answers: map<string, Event>)
    requires forall id :: id in answers ==> answers[id].Confirmation? || answers[id].CustomResult?
    ensures Decisions(pending, answers).Success?
  {
    if pending != [] {
      ConfirmationsDecide(pending[1..], answers);
    }
  }

  lemma {:induction false} AnswersByIdFrom(events: seq<Event>, id: string)
    requires id in AnswersById(events)
    ensures AnswersById(events)[id] in events && Answers(AnswersById(events)[id]) && AnswersById(events)[id].id == id
  {
    var n := |events| - 1;
    assert events == events[..n] + [events[n]];
    if !(Answers(events[n]) && events[n].id == id) {
      AnswersByIdFrom(events[..n], id);
    }
  }

  /** The first event tells what a dispatched batch is: all answers, which decide
      every call they name; or all messages, which start a turn whole. */
  lemma FirstEventClassifies(events: seq<Event>, pending: seq<Call>)
    requires Dispatched(events)
    ensures Answers(events[0]) <==> forall e :: e in events ==> Answers(e)
    ensures Answers(events[0]) ==> Decisions(pending, AnswersById(events)).Success?
    ensures !Answers(events[0]) ==> BuildFreshInput(events).Success?
  {
    assert events[0] in events;
    if Answers(events[0]) {
      forall id | id in AnswersById(events)
        ensures AnswersById(events)[id].Confirmation? || AnswersById(events)[id].CustomResult?
      {
        AnswersByIdFrom(events, id);
      }
      ConfirmationsDecide(pending, AnswersById(events));
    } else {
      FreshInputWhole(events);
      assert forall i :: 0 <= i < |events| ==> events[i] in events;
    }
  }
}
