/**
 Billing Accounts: a row here and a key at the provider, made in steps that no
 one transaction holds together.

 `World` is the rows, the keys the provider holds, and what every request that
 is still between two awaits is about to do. A step is one commit or one
 provider call, and any request may stop between two steps.
 */
module Accounts {
  import opened Text
  import opened Wrappers

  // --- the name a key carries -----------------------------------------------------

  datatype Error =
    BadName | EmptyName | BadLimit | Unfinished | DuplicateRow | AlreadyMinted | Interrupted

  function LowerChar(c: char): char {
    if 'A' <= c <= 'Z' then (c as int + 32) as char else c
  }

  function Lower(s: string): (r: string)
    ensures |r| == |s|
  {
    seq(|s|, i requires 0 <= i < |s| => LowerChar(s[i]))
  }

  /** Capitals become the small letters in their place, and nothing else changes. */
  lemma LowerIs(s: string, i: nat)
    requires i < |s|
    ensures 'A' <= s[i] <= 'Z' ==>
              Lower(s)[i] == "abcdefghijklmnopqrstuvwxyz"[s[i] as int - 'A' as int]
    ensures !('A' <= s[i] <= 'Z') ==> Lower(s)[i] == s[i]
  {
  }

  function Environment(environment: string): string {
    Lower(Strip(environment))
  }

  /** What can be one segment of the colon-delimited name. */
  predicate Segment(s: string) {
    s != "" && forall i :: 0 <= i < |s| ==> s[i] != ':' && !IsSpace(s[i])
  }

  function Fields(environment: string, organization: string, account: string, generation: nat): seq<string> {
    ["vma", Environment(environment), "org", organization, "acct", account, "key", Decimal(generation)]
  }

  function KeyName(environment: string, organization: string, account: string, generation: int): Result<string, Error> {
    if !Segment(Environment(environment)) || !Segment(organization) || !Segment(account) then Failure(BadName)
    else if generation < 1 then Failure(BadName)
    else Success(Join(Fields(environment, organization, account, generation), ':'))
  }

  lemma SegmentIs(s: string)
    ensures Segment(s) <==> s != "" && forall c :: c in s ==> c != ':' && !IsSpace(c)
  {
    assert forall i :: 0 <= i < |s| ==> s[i] in s;
  }

  /** Which names there are: no part is empty or has a colon or a space in it, and
      generations start at one. */
  lemma KeyNameNeeds(environment: string, organization: string, account: string, generation: int)
    ensures KeyName(environment, organization, account, generation).Success?
       <==> && generation >= 1
            && (Lower(Strip(environment)) != "" && forall c :: c in Lower(Strip(environment)) ==> c != ':' && !IsSpace(c))
            && (organization != "" && forall c :: c in organization ==> c != ':' && !IsSpace(c))
            && (account != "" && forall c :: c in account ==> c != ':' && !IsSpace(c))
  {
    SegmentIs(Lower(Strip(environment)));
    SegmentIs(organization);
    SegmentIs(account);
  }

  /** The name is read back by splitting it. */
  lemma KeyNameReadsBack(environment: string, organization: string, account: string, generation: int)
    requires KeyName(environment, organization, account, generation).Success?
    ensures Split(KeyName(environment, organization, account, generation).value, ':')
         == ["vma", Lower(Strip(environment)), "org", organization, "acct", account, "key", Decimal(generation)]
  {
    var fields := Fields(environment, organization, account, generation);
    forall i | 0 <= i < |fields|
      ensures ':' !in fields[i]
    {
    }
    SplitJoin(fields, ':');
  }

  /** One name, one Account: two keys have one name if and only if everything
      they were named from agrees, the environment up to case and padding. */
  lemma KeyNameInjective(e: string, o: string, a: string, g: int, e': string, o': string, a': string, g': int)
    requires KeyName(e, o, a, g).Success? && KeyName(e', o', a', g').Success?
    ensures KeyName(e, o, a, g) == KeyName(e', o', a', g')
       <==> Environment(e) == Environment(e') && o == o' && a == a' && g == g'
  {
    KeyNameReadsBack(e, o, a, g);
    KeyNameReadsBack(e', o', a', g');
    if KeyName(e, o, a, g) == KeyName(e', o', a', g') {
      var s, t := Fields(e, o, a, g), Fields(e', o', a', g');
      assert s[1] == t[1] && s[3] == t[3] && s[5] == t[5] && s[7] == t[7];
      DecimalInjective(g, g');
    }
  }

  // --- listing the provider's keys ------------------------------------------------------

  datatype Key = Key(hash: string, name: string)

  const SHORT_PAGE: nat := 100

  /** What the provider answers: the keys from `offset`, no more than `limit`. */
  function KeyPage(keys: seq<Key>, offset: nat, limit: nat): seq<Key> {
    var left := if offset < |keys| then keys[offset..] else [];
    if |left| <= limit then left else left[..limit]
  }

  /** A short page ends the listing, so it is every key if and only if the
      provider's pages are a hundred long or one of them holds everything. */
  method ListKeys(keys: seq<Key>, limit: nat) returns (result: seq<Key>)
    ensures result <= keys
    ensures result == keys <==> limit >= 100 || |keys| <= limit
  {
    result := [];
    var offset := 0;
    while true
      invariant offset == |result| <= |keys| && result == keys[..offset]
      invariant offset > 0 ==> SHORT_PAGE <= limit
      decreases |keys| - offset
    {
      var page := KeyPage(keys, offset, limit);
      assert result + page == keys[..offset + |page|];
      result := result + page;
      if |page| < SHORT_PAGE {
        return;
      }
      offset := offset + |page|;
    }
  }

  // --- the steps ------------------------------------------------------------------------------

  datatype Status = Provisioning | Active | Suspended

  datatype Credential = Credential(hash: string, active: bool)

  datatype Account = Account(
    organization: string, isDefault: bool, idempotency: Option<string>,
    status: Status, credential: Option<Credential>)

  datatype Minted = Minted(account: string, hash: string)

  /** `minting`: for each Account, the requests that have decided to mint its
      key and not yet asked for it. `recording`: keys the provider has made
      whose request has yet to write them down. */
  datatype World = World(
    environment: string, accounts: map<string, Account>, keys: seq<Key>,
    minting: multiset<string>, recording: set<Minted>)

  datatype Step =
    | Insert(id: string, organization: string, isDefault: bool, idempotency: Option<string>)
    | Decide(id: string)
    | Mint(id: string, hash: string)
    | Abandon(id: string)
    | Record(id: string, hash: string)
    | Lose(id: string, hash: string)
    | Suspend(id: string)
    | Resume(id: string)

  function NameOf(w: World, id: string): Result<string, Error>
    requires id in w.accounts
  {
    KeyName(w.environment, w.accounts[id].organization, id, 1)
  }

  /** How many of these keys carry this name. */
  function Named(keys: seq<Key>, name: string): nat {
    if keys == [] then 0
    else Named(keys[..|keys| - 1], name) + if keys[|keys| - 1].name == name then 1 else 0
  }

  predicate Carries(keys: seq<Key>, name: string) {
    exists i :: 0 <= i < |keys| && keys[i].name == name
  }

  predicate FreshHash(w: World, hash: string) {
    forall i :: 0 <= i < |w.keys| ==> w.keys[i].hash != hash
  }

  /** The table's two unique constraints. */
  predicate Clashes(w: World, organization: string, isDefault: bool, idempotency: Option<string>) {
    exists id :: id in w.accounts && w.accounts[id].organization == organization
      && ((isDefault && w.accounts[id].isDefault)
          || (idempotency.Some? && w.accounts[id].idempotency == idempotency))
  }

  predicate Enabled(w: World, s: Step) {
    match s
    case Insert(id, organization, isDefault, idempotency) =>
      id !in w.accounts && !Clashes(w, organization, isDefault, idempotency)
    case Decide(id) =>
      id in w.accounts && w.accounts[id].isDefault && NameOf(w, id).Success? && !Carries(w.keys, NameOf(w, id).value)
    case Mint(id, hash) =>
      id in w.minting && id in w.accounts && NameOf(w, id).Success? && FreshHash(w, hash)
    case Abandon(id) => id in w.minting
    case Record(id, hash) =>
      Minted(id, hash) in w.recording && id in w.accounts && w.accounts[id].credential.None?
    case Lose(id, hash) => Minted(id, hash) in w.recording
    case Suspend(id) => id in w.accounts && w.accounts[id].credential.Some? && !w.accounts[id].isDefault
    case Resume(id) => id in w.accounts && w.accounts[id].credential.Some? && !w.accounts[id].isDefault
  }

  function SetStatus(a: Account, status: Status, active: bool): Account
    requires a.credential.Some?
  {
    a.(status := status, credential := Some(Credential(a.credential.value.hash, active)))
  }

  function Next(w: World, s: Step): World
    requires Enabled(w, s)
  {
    match s
    case Insert(id, organization, isDefault, idempotency) =>
      w.(accounts := w.accounts[id := Account(organization, isDefault, idempotency, Provisioning, None)],
         minting := w.minting + multiset{id})
    case Decide(id) => w.(minting := w.minting + multiset{id})
    case Mint(id, hash) =>
      w.(keys := w.keys + [Key(hash, NameOf(w, id).value)],
         minting := w.minting - multiset{id}, recording := w.recording + {Minted(id, hash)})
    case Abandon(id) => w.(minting := w.minting - multiset{id})
    case Record(id, hash) =>
      w.(accounts := w.accounts[id := w.accounts[id].(status := Active, credential := Some(Credential(hash, true)))],
         recording := w.recording - {Minted(id, hash)})
    case Lose(id, hash) => w.(recording := w.recording - {Minted(id, hash)})
    case Suspend(id) => w.(accounts := w.accounts[id := SetStatus(w.accounts[id], Suspended, false)])
    case Resume(id) => w.(accounts := w.accounts[id := SetStatus(w.accounts[id], Active, true)])
  }

  predicate Runs(w: World, run: seq<Step>)
    decreases |run|, 0
  {
    run == []
    || (Runs(w, run[..|run| - 1]) && Enabled(After(w, run[..|run| - 1]), run[|run| - 1]))
  }

  function After(w: World, run: seq<Step>): World
    requires Runs(w, run)
    decreases |run|, 1
  {
    if run == [] then w
    else Next(After(w, run[..|run| - 1]), run[|run| - 1])
  }

  function Start(environment: string): World {
    World(environment, map[], [], multiset{}, {})
  }

  function Overlap(before: World, s: Step, id: string): nat {
    if s == Decide(id) && id in before.minting then 1 else 0
  }

  /** The decisions to mint an Account's key that were made while another
      request had already made one and had not yet acted on it. */
  function Overlaps(w: World, run: seq<Step>, id: string): nat
    requires Runs(w, run)
  {
    if run == [] then 0
    else Overlaps(w, run[..|run| - 1], id) + Overlap(After(w, run[..|run| - 1]), run[|run| - 1], id)
  }

  lemma RunOneMore(w: World, run: seq<Step>, s: Step)
    requires Runs(w, run)
    ensures Runs(w, run + [s]) <==> Enabled(After(w, run), s)
    ensures Enabled(After(w, run), s) ==> After(w, run + [s]) == Next(After(w, run), s)
    ensures Enabled(After(w, run), s) ==>
              forall id :: Overlaps(w, run + [s], id) == Overlaps(w, run, id) + Overlap(After(w, run), s, id)
  {
    assert (run + [s])[..|run|] == run;
  }

  // --- one Account at a time -------------------------------------------------------------------

  /** The rows, the requests at work and the keys being recorded of one Account are
      the same. */
  ghost predicate SameFor(w: World, w': World, id: string) {
    && (id in w'.accounts <==> id in w.accounts)
    && (id in w.accounts ==> w'.accounts[id] == w.accounts[id])
    && w'.minting[id] == w.minting[id]
    && (forall hash :: Minted(id, hash) in w'.recording <==> Minted(id, hash) in w.recording)
  }

  lemma StepIsLocal(w: World, s: Step, id: string)
    requires Enabled(w, s) && s.id != id
    ensures SameFor(w, Next(w, s), id)
    ensures w.keys <= Next(w, s).keys && Next(w, s).environment == w.environment
  {
  }

  /** In every run: what is done for one Account leaves the others alone, and no key
      the provider has made is forgotten. */
  lemma {:induction false} RunIsLocal(w: World, run: seq<Step>, id: string)
    requires Runs(w, run) && forall i :: 0 <= i < |run| ==> run[i].id != id
    ensures SameFor(w, After(w, run), id)
    ensures w.keys <= After(w, run).keys
    decreases |run|
  {
    if run != [] {
      var n := |run| - 1;
      RunIsLocal(w, run[..n], id);
      StepIsLocal(After(w, run[..n]), run[n], id);
    }
  }

  /** A suspended Account cannot spend, and resuming it gives back what it was. */
  lemma ResumeUndoesSuspend(w: World, id: string)
    requires Enabled(w, Suspend(id)) && w.accounts[id].status == Active && w.accounts[id].credential.value.active
    ensures var suspended := Next(w, Suspend(id));
            && suspended.accounts[id].status == Suspended && !suspended.accounts[id].credential.value.active
            && suspended.accounts[id].credential.value.hash == w.accounts[id].credential.value.hash
            && Enabled(suspended, Resume(id)) && Next(suspended, Resume(id)) == w
  {
    assert w.accounts[id := w.accounts[id]] == w.accounts;
  }

  // --- what every reachable world keeps ---------------------------------------------------------

  ghost predicate KeyIsHis(w: World, id: string, hash: string) {
    id in w.accounts && NameOf(w, id).Success? && Key(hash, NameOf(w, id).value) in w.keys
  }

  ghost predicate HasOwner(w: World, name: string) {
    exists id :: id in w.accounts && NameOf(w, id) == Success(name)
  }

  ghost predicate KeysNamed(w: World) {
    forall i :: 0 <= i < |w.keys| ==> HasOwner(w, w.keys[i].name)
  }

  ghost predicate WorkIsReal(w: World) {
    && (forall id :: id in w.minting ==> id in w.accounts)
    && (forall m :: m in w.recording ==> KeyIsHis(w, m.account, m.hash))
  }

  ghost predicate RowAgrees(w: World, id: string)
    requires id in w.accounts
  {
    var a := w.accounts[id];
    && (a.credential.Some? <==> a.status != Provisioning)
    && (a.credential.Some? ==> KeyIsHis(w, id, a.credential.value.hash))
    && (a.credential.Some? ==> (a.credential.value.active <==> a.status == Active))
  }

  predicate Distinct(a: Account, b: Account) {
    a.organization == b.organization ==>
      !(a.isDefault && b.isDefault) && (a.idempotency.Some? ==> a.idempotency != b.idempotency)
  }

  ghost predicate Unique(w: World) {
    forall id, id' :: id in w.accounts && id' in w.accounts && id != id' ==> Distinct(w.accounts[id], w.accounts[id'])
  }

  /** Every key names an Account there is; what is recorded, or about to be, is
      a key the provider holds under that Account's name; the status says
      whether there is a credential, and agrees with it; no two rows break a
      unique constraint. */
  ghost predicate Inv(w: World) {
    && KeysNamed(w)
    && WorkIsReal(w)
    && (forall id :: id in w.accounts ==> RowAgrees(w, id))
    && Unique(w)
  }

  lemma NamedSome(keys: seq<Key>, name: string)
    ensures Named(keys, name) > 0 <==> Carries(keys, name)
  {
    if keys != [] {
      var front := keys[..|keys| - 1];
      NamedSome(front, name);
      if Carries(keys, name) && keys[|keys| - 1].name != name {
        var i :| 0 <= i < |keys| && keys[i].name == name;
        assert front[i].name == name;
      }
      if Carries(front, name) {
        var i :| 0 <= i < |front| && front[i].name == name;
        assert keys[i].name == name;
      }
    }
  }

  lemma NameIsOnlyHis(w: World, id: string, id': string)
    requires id in w.accounts && id' in w.accounts && id != id'
    requires NameOf(w, id).Success?
    ensures NameOf(w, id) != NameOf(w, id')
  {
    if NameOf(w, id').Success? {
      KeyNameInjective(w.environment, w.accounts[id].organization, id, 1,
                       w.environment, w.accounts[id'].organization, id', 1);
    }
  }

  /** Rows keep their owner, and keys stay. */
  ghost predicate Extends(w: World, w': World) {
    && w'.environment == w.environment
    && (forall id :: id in w.accounts ==>
          id in w'.accounts && w'.accounts[id].organization == w.accounts[id].organization)
    && w.keys <= w'.keys
  }

  lemma HisStaysHis(w: World, w': World, id: string, hash: string)
    requires Extends(w, w') && KeyIsHis(w, id, hash)
    ensures KeyIsHis(w', id, hash)
  {
    var i :| 0 <= i < |w.keys| && w.keys[i] == Key(hash, NameOf(w, id).value);
    assert w'.keys[i] == w.keys[i];
  }

  lemma StepExtends(w: World, s: Step)
    requires Enabled(w, s)
    ensures Extends(w, Next(w, s))
  {
  }

  lemma KeysStayNamed(w: World, s: Step)
    requires KeysNamed(w) && Enabled(w, s)
    ensures KeysNamed(Next(w, s))
  {
    var w' := Next(w, s);
    StepExtends(w, s);
    forall i | 0 <= i < |w'.keys|
      ensures HasOwner(w', w'.keys[i].name)
    {
      if i < |w.keys| {
        assert w'.keys[i] == w.keys[i] && HasOwner(w, w.keys[i].name);
        var id :| id in w.accounts && NameOf(w, id) == Success(w.keys[i].name);
        assert id in w'.accounts && NameOf(w', id) == NameOf(w, id);
      } else {
        assert s.id in w'.accounts && NameOf(w', s.id) == NameOf(w, s.id);
      }
    }
  }

  lemma WorkStaysReal(w: World, s: Step)
    requires WorkIsReal(w) && Enabled(w, s)
    ensures WorkIsReal(Next(w, s))
  {
    var w' := Next(w, s);
    StepExtends(w, s);
    forall m | m in w'.recording
      ensures KeyIsHis(w', m.account, m.hash)
    {
      if m in w.recording {
        HisStaysHis(w, w', m.account, m.hash);
      } else {
        assert w'.keys[|w.keys|] == Key(m.hash, NameOf(w, m.account).value);
      }
    }
  }

  lemma RowStaysAgreeing(w: World, s: Step, id: string)
    requires WorkIsReal(w) && Enabled(w, s)
    requires id in w.accounts ==> RowAgrees(w, id)
    requires id in Next(w, s).accounts
    ensures RowAgrees(Next(w, s), id)
  {
    var w' := Next(w, s);
    StepExtends(w, s);
    if w'.accounts[id].credential.Some? {
      HisStaysHis(w, w', id, w'.accounts[id].credential.value.hash);
    }
  }

  lemma StaysUnique(w: World, s: Step)
    requires Unique(w) && Enabled(w, s)
    ensures Unique(Next(w, s))
  {
  }

  lemma StepKeeps(w: World, s: Step)
    requires Inv(w) && Enabled(w, s)
    ensures Inv(Next(w, s))
  {
    KeysStayNamed(w, s);
    WorkStaysReal(w, s);
    StaysUnique(w, s);
    forall id | id in Next(w, s).accounts
      ensures RowAgrees(Next(w, s), id)
    {
      RowStaysAgreeing(w, s, id);
    }
  }

  lemma {:induction false} RunKeeps(w: World, run: seq<Step>)
    requires Inv(w) && Runs(w, run)
    ensures Inv(After(w, run)) && Extends(w, After(w, run))
    decreases |run|
  {
    if run != [] {
      var front := run[..|run| - 1];
      RunKeeps(w, front);
      StepKeeps(After(w, front), run[|run| - 1]);
      StepExtends(After(w, front), run[|run| - 1]);
    }
  }

  // --- how many keys an Account has -------------------------------------------------------------

  /** The keys an Account has and those it is about to get. */
  function Coming(w: World, id: string): nat {
    w.minting[id] + if id in w.accounts && NameOf(w, id).Success? then Named(w.keys, NameOf(w, id).value) else 0
  }

  lemma NoKeyBeforeTheRow(w: World, organization: string, id: string)
    requires Inv(w) && id !in w.accounts
    requires KeyName(w.environment, organization, id, 1).Success?
    ensures Named(w.keys, KeyName(w.environment, organization, id, 1).value) == 0
  {
    var name := KeyName(w.environment, organization, id, 1).value;
    NamedSome(w.keys, name);
    if Carries(w.keys, name) {
      var i :| 0 <= i < |w.keys| && w.keys[i].name == name;
      assert HasOwner(w, w.keys[i].name);
      var other :| other in w.accounts && NameOf(w, other) == Success(w.keys[i].name);
      KeyNameInjective(w.environment, organization, id, 1, w.environment, w.accounts[other].organization, other, 1);
    }
  }

  lemma MintCounts(w: World, m: string, hash: string, id: string)
    requires Inv(w) && Enabled(w, Mint(m, hash))
    ensures Coming(Next(w, Mint(m, hash)), id) == Coming(w, id)
  {
    var w' := Next(w, Mint(m, hash));
    assert w'.keys[..|w.keys|] == w.keys;
    if id in w.accounts {
      assert NameOf(w', id) == NameOf(w, id);
      if id != m && NameOf(w, id).Success? {
        NameIsOnlyHis(w, id, m);
      }
    }
  }

  lemma ComingStep(w: World, s: Step, id: string)
    requires Inv(w) && Enabled(w, s)
    ensures Coming(Next(w, s), id) <= 1 || Coming(Next(w, s), id) <= Coming(w, id)
            || (s == Decide(id) && id in w.minting && Coming(Next(w, s), id) == Coming(w, id) + 1)
  {
    var w' := Next(w, s);
    match s
    case Insert(new_, organization, _, _) =>
      if new_ == id {
        if KeyName(w.environment, organization, id, 1).Success? {
          NoKeyBeforeTheRow(w, organization, id);
        }
      } else if id in w.accounts {
        assert NameOf(w', id) == NameOf(w, id);
      }
    case Decide(d) =>
      if d == id {
        NamedSome(w.keys, NameOf(w, id).value);
      }
      if id in w.accounts {
        assert NameOf(w', id) == NameOf(w, id);
      }
    case Mint(m, hash) =>
      MintCounts(w, m, hash, id);
    case _ =>
      if id in w.accounts {
        assert NameOf(w', id) == NameOf(w, id);
      }
  }

  /** The provider never holds more keys under one Account's name than one and
      one for each overlap; with none, it holds at most one. */
  lemma {:induction false} KeysBounded(environment: string, run: seq<Step>, id: string)
    requires Runs(Start(environment), run)
    ensures Coming(After(Start(environment), run), id) <= 1 + Overlaps(Start(environment), run, id)
    decreases |run|
  {
    var w := Start(environment);
    if run != [] {
      var front := run[..|run| - 1];
      KeysBounded(environment, front, id);
      RunKeeps(w, front);
      ComingStep(After(w, front), run[|run| - 1], id);
    }
  }

  /** An Account that can be spent through has a recorded credential, the
      provider holds that key under the Account's own name, and the row and the
      credential agree; and no Organization has two defaults or used one
      idempotency key twice. */
  lemma ActiveHasItsKey(environment: string, run: seq<Step>, id: string, id': string)
    requires Runs(Start(environment), run)
    requires id in After(Start(environment), run).accounts && id' in After(Start(environment), run).accounts
    ensures var w := After(Start(environment), run);
            var a := w.accounts[id];
            && (a.status == Active <==> a.credential.Some? && a.credential.value.active)
            && (a.credential.Some? ==> KeyIsHis(w, id, a.credential.value.hash))
            && (id != id' ==> Distinct(a, w.accounts[id']))
  {
    RunKeeps(Start(environment), run);
    assert RowAgrees(After(Start(environment), run), id);
  }

  /** `n` requests have decided to mint this Account's key and none has. */
  predicate Poised(w: World, id: string, name: string, n: nat) {
    && w.minting[id] == n && w.keys == []
    && id in w.accounts && w.accounts[id].isDefault && NameOf(w, id) == Success(name)
  }

  lemma PoisedStart(environment: string, organization: string, id: string) returns (run: seq<Step>)
    requires KeyName(environment, organization, id, 1).Success?
    ensures Runs(Start(environment), run) && Overlaps(Start(environment), run, id) == 0
    ensures Poised(After(Start(environment), run), id, KeyName(environment, organization, id, 1).value, 1)
  {
    var insert := Insert(id, organization, true, None);
    RunOneMore(Start(environment), [], insert);
    run := [insert];
    assert [] + [insert] == run;
  }

  lemma DecideStep(w: World, run: seq<Step>, id: string, name: string, n: nat)
    requires Runs(w, run) && Poised(After(w, run), id, name, n) && n > 0
    ensures Runs(w, run + [Decide(id)]) && Poised(After(w, run + [Decide(id)]), id, name, n + 1)
    ensures Overlaps(w, run + [Decide(id)], id) == Overlaps(w, run, id) + 1
  {
    RunOneMore(w, run, Decide(id));
  }

  lemma {:induction false} ManyDecide(w: World, before: seq<Step>, id: string, name: string, n: nat)
    returns (run: seq<Step>)
    requires Runs(w, before) && Poised(After(w, before), id, name, 1)
    ensures Runs(w, run) && Overlaps(w, run, id) == Overlaps(w, before, id) + n
    ensures Poised(After(w, run), id, name, n + 1)
    decreases n
  {
    run := before;
    if n > 0 {
      run := ManyDecide(w, before, id, name, n - 1);
      DecideStep(w, run, id, name, n);
      run := run + [Decide(id)];
    }
  }

  /** `n` keys are there, all of them this Account's. */
  predicate HasMinted(w: World, id: string, name: string, n: nat) {
    && Named(w.keys, name) == n == |w.keys|
    && id in w.accounts && NameOf(w, id) == Success(name)
    && forall i :: 0 <= i < n ==> |w.keys[i].hash| == i
  }

  /** A hash unlike any shorter one. */
  function Tally(n: nat): (hash: string)
    ensures |hash| == n
  {
    seq(n, _ => '|')
  }

  lemma MintsOneMore(w: World, id: string, name: string, n: nat)
    requires HasMinted(w, id, name, n) && w.minting[id] > 0
    ensures Enabled(w, Mint(id, Tally(n))) && HasMinted(Next(w, Mint(id, Tally(n))), id, name, n + 1)
    ensures Next(w, Mint(id, Tally(n))).minting[id] == w.minting[id] - 1
  {
    assert Next(w, Mint(id, Tally(n))).keys[..n] == w.keys;
  }

  /** After this run there are `n` keys, and still `left` requests to make one each. */
  ghost predicate MintedBy(w: World, run: seq<Step>, id: string, name: string, n: nat, left: nat) {
    Runs(w, run) && HasMinted(After(w, run), id, name, n) && After(w, run).minting[id] == left
  }

  lemma MintStep(w: World, run: seq<Step>, id: string, name: string, n: nat, left: nat)
    requires MintedBy(w, run, id, name, n, left) && left > 0
    ensures MintedBy(w, run + [Mint(id, Tally(n))], id, name, n + 1, left - 1)
    ensures Overlaps(w, run + [Mint(id, Tally(n))], id) == Overlaps(w, run, id)
  {
    MintsOneMore(After(w, run), id, name, n);
    RunOneMore(w, run, Mint(id, Tally(n)));
  }

  lemma {:induction false} ManyMint(w: World, before: seq<Step>, id: string, name: string, n: nat, left: nat)
    returns (run: seq<Step>)
    requires MintedBy(w, before, id, name, 0, n + left)
    ensures MintedBy(w, run, id, name, n, left)
    ensures Overlaps(w, run, id) == Overlaps(w, before, id)
    decreases n
  {
    run := before;
    if n > 0 {
      run := ManyMint(w, before, id, name, n - 1, left + 1);
      MintStep(w, run, id, name, n - 1, left + 1);
      run := run + [Mint(id, Tally(n - 1))];
    }
  }

  /** And no fewer: requests that all look before any of them mints each mint
      one, so n overlaps do leave n + 1 live keys under one name. */
  lemma OverlapsMint(environment: string, organization: string, id: string, n: nat) returns (run: seq<Step>)
    requires KeyName(environment, organization, id, 1).Success?
    ensures Runs(Start(environment), run) && Overlaps(Start(environment), run, id) == n
    ensures Named(After(Start(environment), run).keys, KeyName(environment, organization, id, 1).value) == n + 1
  {
    var w, name := Start(environment), KeyName(environment, organization, id, 1).value;
    run := PoisedStart(environment, organization, id);
    run := ManyDecide(w, run, id, name, n);
    run := ManyMint(w, run, id, name, n + 1, 0);
  }

  // --- what can still be finished ------------------------------------------------------------------

  /** Someone is about to write this Account's key down, or to mint it, or may
      still decide to. */
  ghost predicate Finishable(w: World, id: string)
    requires id in w.accounts
  {
    || (exists hash :: Minted(id, hash) in w.recording)
    || (NameOf(w, id).Success? && id in w.minting)
    || (NameOf(w, id).Success? && w.accounts[id].isDefault && !Carries(w.keys, NameOf(w, id).value))
  }

  lemma LostStep(w: World, s: Step, id: string)
    requires WorkIsReal(w) && Enabled(w, s) && id in w.accounts && w.accounts[id].credential.None?
    requires !Finishable(w, id)
    ensures Next(w, s).accounts[id].credential.None? && !Finishable(Next(w, s), id)
  {
    var w' := Next(w, s);
    StepExtends(w, s);
    assert NameOf(w', id) == NameOf(w, id);
    if NameOf(w, id).Success? && Carries(w.keys, NameOf(w, id).value) {
      var i :| 0 <= i < |w.keys| && w.keys[i].name == NameOf(w, id).value;
      assert w'.keys[i] == w.keys[i];
    }
  }

  /** An Account whose key was minted and lost, with nobody left at work on it,
      never gets a credential, whatever is run; short of revoking the key. */
  lemma {:induction false} LostIsForever(w: World, run: seq<Step>, id: string)
    requires Inv(w) && Runs(w, run) && id in w.accounts && w.accounts[id].credential.None?
    requires !Finishable(w, id)
    ensures id in After(w, run).accounts && After(w, run).accounts[id].credential.None?
    ensures !Finishable(After(w, run), id)
    decreases |run|
  {
    if run != [] {
      var front := run[..|run| - 1];
      LostIsForever(w, front, id);
      RunKeeps(w, front);
      LostStep(After(w, front), run[|run| - 1], id);
    }
  }

  lemma OneStep(w: World, s: Step)
    requires Enabled(w, s)
    ensures Runs(w, [s]) && After(w, [s]) == Next(w, s)
  {
    RunOneMore(w, [], s);
    assert [] + [s] == [s];
  }

  lemma MintAndRecord(w: World, before: seq<Step>, id: string, hash: string)
    requires Runs(w, before)
    requires var v := After(w, before);
             && id in v.minting && id in v.accounts && v.accounts[id].credential.None?
             && NameOf(v, id).Success? && FreshHash(v, hash)
    ensures var run := before + [Mint(id, hash)] + [Record(id, hash)];
            Runs(w, run) && id in After(w, run).accounts && After(w, run).accounts[id].credential.Some?
  {
    RunOneMore(w, before, Mint(id, hash));
    RunOneMore(w, before + [Mint(id, hash)], Record(id, hash));
  }

  /** And otherwise some run does give it one. */
  lemma FinishableCanFinish(w: World, id: string, hash: string) returns (run: seq<Step>)
    requires id in w.accounts && w.accounts[id].credential.None? && FreshHash(w, hash)
    requires Finishable(w, id)
    ensures Runs(w, run) && id in After(w, run).accounts && After(w, run).accounts[id].credential.Some?
  {
    if h :| Minted(id, h) in w.recording {
      run := [Record(id, h)];
      OneStep(w, Record(id, h));
    } else if id in w.minting {
      MintAndRecord(w, [], id, hash);
      run := [] + [Mint(id, hash)] + [Record(id, hash)];
    } else {
      OneStep(w, Decide(id));
      MintAndRecord(w, [Decide(id)], id, hash);
      run := [Decide(id)] + [Mint(id, hash)] + [Record(id, hash)];
    }
  }

  // --- the requests --------------------------------------------------------------------------------

  /** How far a request gets once it has decided to mint: not to the provider
      (or it was refused), only that far, or all the way. */
  datatype Fate = Stopped | Lost(hash: string) | Recorded(hash: string)

  /** The steps of `_provision_credential`. */
  function ProvisionSteps(named: bool, id: string, fate: Fate): seq<Step> {
    if !named then [Abandon(id)]
    else match fate
      case Stopped => [Abandon(id)]
      case Lost(hash) => [Mint(id, hash), Lose(id, hash)]
      case Recorded(hash) => [Mint(id, hash), Record(id, hash)]
  }

  predicate IsDefaultOf(w: World, id: string, organization: string) {
    id in w.accounts && w.accounts[id].isDefault && w.accounts[id].organization == organization
  }

  /** What asking for an existing default Account answers. */
  function Finished(w: World, d: string, fate: Fate): Result<string, Error>
    requires d in w.accounts
  {
    if w.accounts[d].credential.Some? then Success(d)
    else if NameOf(w, d).Failure? then Failure(BadName)
    else if Carries(w.keys, NameOf(w, d).value) then Failure(AlreadyMinted)
    else if fate.Recorded? then Success(d)
    else Failure(Interrupted)
  }

  predicate Creatable(w: World, name: string, limit: Option<real>, organization: string, isDefault: bool,
                      idempotency: Option<string>) {
    Strip(name) != "" && (limit.Some? ==> limit.value > 0.0) && !Clashes(w, organization, isDefault, idempotency)
  }

  /** This Account was made by an earlier request with the same key. */
  predicate MadeBy(w: World, x: string, organization: string, idempotency: Option<string>) {
    && idempotency.Some? && idempotency.value != ""
    && x in w.accounts && w.accounts[x].organization == organization && w.accounts[x].idempotency == idempotency
  }

  /** A row would break one of the table's constraints: a second default, or a
      second use of a key. */
  predicate InTheWay(w: World, x: string, organization: string, isDefault: bool, idempotency: Option<string>) {
    && x in w.accounts && w.accounts[x].organization == organization
    && ((isDefault && w.accounts[x].isDefault) || (idempotency.Some? && w.accounts[x].idempotency == idempotency))
  }

  predicate Quiet(w: World) {
    w.minting == multiset{} && w.recording == {}
  }

  lemma ClashIsInTheWay(w: World, organization: string, isDefault: bool, idempotency: Option<string>)
    ensures Clashes(w, organization, isDefault, idempotency) <==> exists x :: InTheWay(w, x, organization, isDefault, idempotency)
  {
    if x :| InTheWay(w, x, organization, isDefault, idempotency) {
      assert w.accounts[x].organization == organization;
    }
    if Clashes(w, organization, isDefault, idempotency) {
      var x :| x in w.accounts && w.accounts[x].organization == organization
        && ((isDefault && w.accounts[x].isDefault) || (idempotency.Some? && w.accounts[x].idempotency == idempotency));
      assert InTheWay(w, x, organization, isDefault, idempotency);
    }
  }

  /** One request at a time over one database and one provider. `run` is every
      step that has been taken. */
  class Billing {
    const environment: string
    var world: World
    ghost var run: seq<Step>

    ghost predicate Valid()
      reads this
    {
      && Runs(Start(environment), run) && world == After(Start(environment), run)
      && world.environment == environment
      && forall id :: Overlaps(Start(environment), run, id) == 0
    }

    constructor (environment: string)
      ensures Valid() && Quiet(world) && this.environment == environment && run == []
    {
      this.environment := environment;
      world := Start(environment);
      run := [];
    }

    /** Between two requests, every Account has at most one key at the provider,
        and one that is active has its credential. */
    lemma OneKeyEach(id: string)
      requires Valid() && id in world.accounts && NameOf(world, id).Success?
      ensures Named(world.keys, NameOf(world, id).value) <= 1
      ensures world.accounts[id].status == Active ==> world.accounts[id].credential.Some?
    {
      KeysBounded(environment, run, id);
      ActiveHasItsKey(environment, run, id, id);
    }

    method Take(s: Step)
      requires Valid() && Enabled(world, s)
      requires s.Decide? ==> s.id !in world.minting
      modifies this
      ensures Valid() && world == Next(old(world), s) && run == old(run) + [s]
    {
      RunOneMore(Start(environment), run, s);
      world := Next(world, s);
      run := run + [s];
    }

    method ProvisionCredential(id: string, fate: Fate) returns (made: Result<string, Error>)
      requires Valid() && id in world.accounts && world.accounts[id].credential.None?
      requires world.minting == multiset{id} && world.recording == {}
      requires fate.Stopped? || FreshHash(world, fate.hash)
      modifies this
      ensures Valid() && Quiet(world)
      ensures run == old(run) + ProvisionSteps(old(NameOf(world, id)).Success?, id, fate)
      ensures made.Success? <==> old(NameOf(world, id)).Success? && fate.Recorded?
      ensures made.Success? ==> made.value == id && KeyIsHis(world, id, fate.hash)
      ensures made.Success? ==>
                world.accounts == old(world.accounts)[id :=
                  old(world.accounts)[id].(status := Active, credential := Some(Credential(fate.hash, true)))]
      ensures made.Failure? ==> world.accounts == old(world.accounts)
      ensures made.Failure? ==> made.error == if old(NameOf(world, id)).Success? then Interrupted else BadName
      ensures old(NameOf(world, id)).Failure? || fate.Stopped? ==> world.keys == old(world.keys)
      ensures old(NameOf(world, id)).Success? && !fate.Stopped? ==>
                world.keys == old(world.keys) + [Key(fate.hash, old(NameOf(world, id)).value)]
    {
      var name := NameOf(world, id);
      if name.Failure? || fate.Stopped? {
        Take(Abandon(id));
        return Failure(if name.Failure? then BadName else Interrupted);
      }
      Take(Mint(id, fate.hash));
      if fate.Lost? {
        Take(Lose(id, fate.hash));
        return Failure(Interrupted);
      }
      Take(Record(id, fate.hash));
      made := Success(id);
    }

    /** There is never more than one. */
    method GetByIdempotencyKey(organization: string, idempotency: Option<string>) returns (found: Option<string>)
      requires Valid() && idempotency.Some? && idempotency.value != ""
      ensures found.None? ==> forall x :: !MadeBy(world, x, organization, idempotency)
      ensures found.Some? ==> forall x :: MadeBy(world, x, organization, idempotency) <==> x == found.value
    {
      RunKeeps(Start(environment), run);
      assert Unique(world);
      var existing := set x | x in world.accounts && MadeBy(world, x, organization, idempotency);
      if existing == {} {
        forall x
          ensures !MadeBy(world, x, organization, idempotency)
        {
          assert x !in existing;
        }
        return None;
      }
      var x :| x in existing;
      found := Some(x);
    }

    /** What a repeat of a request that named a key gets, if this is one. */
    method Repeated(organization: string, idempotency: Option<string>) returns (answer: Option<Result<string, Error>>)
      requires Valid()
      ensures forall x :: x in world.accounts && world.accounts[x].organization == organization
                          && idempotency.Some? && idempotency.value != "" && world.accounts[x].idempotency == idempotency ==>
                answer == Some(if world.accounts[x].status == Provisioning then Failure(Unfinished) else Success(x))
      ensures answer.None? <==> forall x :: !MadeBy(world, x, organization, idempotency)
      ensures answer.Some? ==> answer.value == Failure(Unfinished) || (answer.value.Success? && answer.value.value in world.accounts)
    {
      if idempotency.None? || idempotency.value == "" {
        return None;
      }
      var first := GetByIdempotencyKey(organization, idempotency);
      forall x | x in world.accounts && world.accounts[x].organization == organization
                 && world.accounts[x].idempotency == idempotency
        ensures first == Some(x)
      {
        assert MadeBy(world, x, organization, idempotency);
      }
      if first.None? {
        return None;
      }
      assert MadeBy(world, first.value, organization, idempotency);
      answer := Some(if world.accounts[first.value].status == Provisioning then Failure(Unfinished) else Success(first.value));
    }

    /** `id` is the identifier the new row would get. A repeat of a request that
        named a key gets the Account the first one made, or is told that it did not
        complete; a key that is new, and only then, can be refused as a duplicate. */
    method CreateAccount(id: string, organization: string, name: string, isDefault: bool,
                         limit: Option<real>, idempotency: Option<string>, fate: Fate)
      returns (made: Result<string, Error>)
      requires Valid() && Quiet(world) && id !in world.accounts
      requires fate.Stopped? || FreshHash(world, fate.hash)
      modifies this
      ensures Valid() && Quiet(world)
      ensures made == Failure(EmptyName) <==> Strip(name) == ""
      ensures made == Failure(BadLimit) <==> Strip(name) != "" && limit.Some? && limit.value <= 0.0
      ensures Strip(name) != "" && (limit.Some? ==> limit.value > 0.0) ==>
                forall x :: x in old(world).accounts && old(world).accounts[x].organization == organization
                            && idempotency.Some? && idempotency.value != ""
                            && old(world).accounts[x].idempotency == idempotency ==>
                  && made == (if old(world).accounts[x].status == Provisioning then Failure(Unfinished) else Success(x))
                  && run == old(run)
      ensures Strip(name) != "" && (limit.Some? ==> limit.value > 0.0)
              && (forall x :: !MadeBy(old(world), x, organization, idempotency)) ==>
                && (made == Failure(DuplicateRow) <==> exists x :: InTheWay(old(world), x, organization, isDefault, idempotency))
                && made != Failure(Unfinished)
      ensures made.Failure? && made.error in {EmptyName, BadLimit, Unfinished, DuplicateRow} ==> run == old(run)
      ensures made == Success(id) ==>
                && fate.Recorded? && KeyIsHis(world, id, fate.hash)
                && world.accounts == old(world.accounts)[id :=
                     Account(organization, isDefault, idempotency, Active, Some(Credential(fate.hash, true)))]
      ensures Creatable(old(world), name, limit, organization, isDefault, idempotency) ==>
                && made == (if KeyName(environment, organization, id, 1).Failure? then Failure(BadName)
                            else if fate.Recorded? then Success(id) else Failure(Interrupted))
                && (made.Failure? ==>
                      world.accounts == old(world.accounts)[id :=
                        Account(organization, isDefault, idempotency, Provisioning, None)])
    {
      if Strip(name) == "" {
        return Failure(EmptyName);
      }
      if limit.Some? && limit.value <= 0.0 {
        return Failure(BadLimit);
      }
      var repeated := Repeated(organization, idempotency);
      if repeated.Some? {
        return repeated.value;
      }
      ClashIsInTheWay(world, organization, isDefault, idempotency);
      if Clashes(world, organization, isDefault, idempotency) {
        return Failure(DuplicateRow);
      }
      made := InsertAndProvision(id, organization, isDefault, idempotency, fate);
    }

    method InsertAndProvision(id: string, organization: string, isDefault: bool, idempotency: Option<string>, fate: Fate)
      returns (made: Result<string, Error>)
      requires Valid() && Quiet(world) && id !in world.accounts
      requires !Clashes(world, organization, isDefault, idempotency)
      requires fate.Stopped? || FreshHash(world, fate.hash)
      modifies this
      ensures Valid() && Quiet(world)
      ensures made == (if KeyName(environment, organization, id, 1).Failure? then Failure(BadName)
                       else if fate.Recorded? then Success(id) else Failure(Interrupted))
      ensures made.Success? ==>
                && KeyIsHis(world, id, fate.hash)
                && world.accounts == old(world.accounts)[id :=
                     Account(organization, isDefault, idempotency, Active, Some(Credential(fate.hash, true)))]
      ensures made.Failure? ==>
                world.accounts == old(world.accounts)[id := Account(organization, isDefault, idempotency, Provisioning, None)]
    {
      Take(Insert(id, organization, isDefault, idempotency));
      made := ProvisionCredential(id, fate);
    }

    /** What becomes of a default Account that is there: one with a credential
        is not touched, one whose key is out there is refused, and any other is
        finished. */
    method FinishDefault(d: string, fate: Fate) returns (made: Result<string, Error>)
      requires Valid() && Quiet(world) && d in world.accounts && world.accounts[d].isDefault
      requires fate.Stopped? || FreshHash(world, fate.hash)
      modifies this
      ensures Valid() && Quiet(world)
      ensures made == Finished(old(world), d, fate)
      ensures made == Failure(AlreadyMinted) <==>
                && old(world).accounts[d].credential.None? && old(NameOf(world, d)).Success?
                && exists i :: 0 <= i < |old(world).keys| && old(world).keys[i].name == old(NameOf(world, d)).value
      ensures made.Success? <==>
                || old(world).accounts[d].credential.Some?
                || (made != Failure(AlreadyMinted) && old(NameOf(world, d)).Success? && fate.Recorded?)
      ensures made.Success? ==> made.value == d
      ensures made.Failure? ==> world.accounts == old(world.accounts)
      ensures made != Failure(Interrupted) && made != Success(d) ==> run == old(run)
      ensures old(world.accounts)[d].credential.Some? ==> run == old(run)
      ensures made.Success? ==> d in world.accounts && world.accounts[d].credential.Some?
    {
      if world.accounts[d].credential.Some? {
        return Success(d);
      }
      var expected := NameOf(world, d);
      if expected.Failure? {
        return Failure(BadName);
      }
      var listed := ListKeys(world.keys, SHORT_PAGE);
      if Carries(listed, expected.value) {
        return Failure(AlreadyMinted);
      }
      Take(Decide(d));
      made := ProvisionCredential(d, fate);
    }

    /** There is never more than one to choose from. */
    method GetDefaultAccount(organization: string) returns (found: Option<string>)
      requires Valid()
      ensures found.None? ==>
                forall d :: d in world.accounts ==> !world.accounts[d].isDefault || world.accounts[d].organization != organization
      ensures found.Some? ==>
                && found.value in world.accounts && world.accounts[found.value].isDefault
                && world.accounts[found.value].organization == organization
      ensures found.Some? ==> forall d :: IsDefaultOf(world, d, organization) <==> d == found.value
    {
      RunKeeps(Start(environment), run);
      assert Unique(world);
      var defaults := set x | x in world.accounts && IsDefaultOf(world, x, organization);
      if defaults == {} {
        forall d | d in world.accounts
          ensures !world.accounts[d].isDefault || world.accounts[d].organization != organization
        {
          assert d !in defaults;
        }
        return None;
      }
      var d :| d in defaults;
      found := Some(d);
    }

    method CreateDefaultAccount(id: string, organization: string, fate: Fate) returns (made: Result<string, Error>)
      requires Valid() && Quiet(world) && id !in world.accounts
      requires forall d :: !IsDefaultOf(world, d, organization)
      requires fate.Stopped? || FreshHash(world, fate.hash)
      modifies this
      ensures Valid() && Quiet(world)
      ensures made == (if KeyName(environment, organization, id, 1).Failure? then Failure(BadName)
                       else if fate.Recorded? then Success(id) else Failure(Interrupted))
      ensures made.Success? ==>
                world.accounts == old(world.accounts)[id :=
                  Account(organization, true, None, Active, Some(Credential(fate.hash, true)))]
      ensures made.Failure? ==>
                world.accounts == old(world.accounts)[id := Account(organization, true, None, Provisioning, None)]
    {
      forall d | d in world.accounts
        ensures !(world.accounts[d].organization == organization && world.accounts[d].isDefault)
      {
        assert !IsDefaultOf(world, d, organization);
      }
      made := CreateAccount(id, organization, "Default", true, None, None, fate);
    }

    method EnsureDefaultAccount(id: string, organization: string, fate: Fate) returns (made: Result<string, Error>)
      requires Valid() && Quiet(world) && id !in world.accounts
      requires fate.Stopped? || FreshHash(world, fate.hash)
      modifies this
      ensures Valid() && Quiet(world)
      ensures forall d :: IsDefaultOf(old(world), d, organization) ==>
                made == Finished(old(world), d, fate)
                && (made.Success? ==> d in world.accounts && world.accounts[d].credential.Some?)
      ensures (forall d :: !IsDefaultOf(old(world), d, organization)) ==>
                && made == (if KeyName(environment, organization, id, 1).Failure? then Failure(BadName)
                            else if fate.Recorded? then Success(id) else Failure(Interrupted))
                && id in world.accounts && IsDefaultOf(world, id, organization)
                && (made.Success? ==> world.accounts[id].status == Active && world.accounts[id].credential.Some?)
    {
      var found := GetDefaultAccount(organization);
      if found.None? {
        made := CreateDefaultAccount(id, organization, fate);
      } else {
        assert IsDefaultOf(world, found.value, organization);
        made := FinishDefault(found.value, fate);
      }
    }
  }
}
