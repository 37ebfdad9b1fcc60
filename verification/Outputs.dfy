/**
 Making a Session's file records say what its output directory says: the rows
 are a listing, not a log, and an id that has been handed out keeps resolving.
 */
module Outputs {
  import opened Wrappers

  datatype File = File(path: string, hash: string, archived: bool)

  /** One file of the container's listing. */
  datatype OutputFile = OutputFile(path: string, hash: string)

  datatype Error = NeverArrived(path: string)

  type Rows = map<nat, File>

  predicate LiveAt(rows: Rows, id: nat, path: string) {
    id in rows && rows[id].path == path && !rows[id].archived
  }

  predicate BothLive(rows: Rows, id: nat, other: nat) {
    id in rows && other in rows && !rows[id].archived && !rows[other].archived
  }

  /** What the partial unique index keeps. */
  ghost predicate OneLivePerPath(rows: Rows) {
    forall id, other :: BothLive(rows, id, other) && rows[id].path == rows[other].path ==> id == other
  }

  ghost predicate HasLive(rows: Rows, path: string) {
    exists id :: LiveAt(rows, id, path)
  }

  predicate Listed(found: seq<OutputFile>, path: string) {
    exists i :: 0 <= i < |found| && found[i].path == path
  }

  /** The hash a listing ends with for a path, should it name one twice. */
  function LastHash(found: seq<OutputFile>, path: string): string
    requires Listed(found, path)
  {
    var last := found[|found| - 1];
    if last.path == path then last.hash else LastHash(found[..|found| - 1], path)
  }

  /** Each path has one hash. */
  ghost predicate Consistent(found: seq<OutputFile>) {
    forall i, j :: 0 <= i < |found| && 0 <= j < |found| && found[i].path == found[j].path ==> found[i].hash == found[j].hash
  }

  /** The live rows are the listing: the same paths, with its hashes. */
  ghost predicate Mirrors(rows: Rows, found: seq<OutputFile>) {
    && OneLivePerPath(rows)
    && (forall path :: HasLive(rows, path) <==> Listed(found, path))
    && (forall id :: id in rows && !rows[id].archived && Listed(found, rows[id].path) ==>
          rows[id].hash == LastHash(found, rows[id].path))
  }

  /** What no pass over the outputs, finished or not, ever does to a row: lose
      it, rename it, revive it, or touch it once archived. */
  ghost predicate Continues(before: Rows, after: Rows) {
    forall id :: id in before ==>
      && id in after && after[id].path == before[id].path
      && (before[id].archived ==> after[id] == before[id])
  }

  /** The rows after the first entries of a listing have been taken. */
  ghost predicate Taken(before: Rows, after: Rows, found: seq<OutputFile>) {
    && OneLivePerPath(after) && Continues(before, after)
    && (forall id :: id in before ==> after[id].archived == before[id].archived)
    && (forall id :: id in before && !before[id].archived && !Listed(found, before[id].path) ==> after[id] == before[id])
    && (forall id :: id in after && !after[id].archived && Listed(found, after[id].path) ==>
          after[id].hash == LastHash(found, after[id].path))
    && (forall id :: id in after && id !in before ==> !after[id].archived && !HasLive(before, after[id].path) && Listed(found, after[id].path))
    && (forall path :: Listed(found, path) ==> HasLive(after, path))
  }

  lemma ListedOneMore(found: seq<OutputFile>, output: OutputFile)
    ensures forall path :: Listed(found + [output], path) <==> Listed(found, path) || path == output.path
    ensures forall path :: Listed(found, path) && path != output.path ==> LastHash(found + [output], path) == LastHash(found, path)
    ensures Listed(found + [output], output.path) && LastHash(found + [output], output.path) == output.hash
  {
    var longer := found + [output];
    assert longer[..|found|] == found;
    forall path
      ensures Listed(longer, path) <==> Listed(found, path) || path == output.path
    {
      if Listed(found, path) {
        var i :| 0 <= i < |found| && found[i].path == path;
        assert longer[i].path == path;
      }
      if path == output.path {
        assert longer[|found|].path == path;
      }
      if Listed(longer, path) && path != output.path {
        var i :| 0 <= i < |longer| && longer[i].path == path;
        assert found[i].path == path;
      }
    }
  }

  /** One listed file taken: a hash replaced in place, or a row added for a path
      that had none. */
  ghost predicate TookOne(before: Rows, after: Rows, output: OutputFile, id: nat) {
    if id in before
    then LiveAt(before, id, output.path) && after == before[id := before[id].(hash := output.hash)]
    else !HasLive(before, output.path) && after == before[id := File(output.path, output.hash, false)]
  }

  lemma TookOneUnique(before: Rows, after: Rows, output: OutputFile, id: nat)
    requires OneLivePerPath(before) && TookOne(before, after, output, id)
    ensures OneLivePerPath(after) && LiveAt(after, id, output.path)
  {
    if id !in before {
      forall other | other in before && !before[other].archived
        ensures before[other].path != output.path
      {
        assert !LiveAt(before, other, output.path);
      }
    }
  }

  lemma TookOneLists(during: Rows, after: Rows, found: seq<OutputFile>, output: OutputFile, id: nat)
    requires TookOne(during, after, output, id)
    requires forall path :: Listed(found, path) ==> HasLive(during, path)
    ensures forall path :: Listed(found + [output], path) ==> HasLive(after, path)
  {
    ListedOneMore(found, output);
    forall path | Listed(found + [output], path)
      ensures HasLive(after, path)
    {
      if path == output.path {
        assert LiveAt(after, id, path);
      } else {
        assert HasLive(during, path);
        var i :| LiveAt(during, i, path);
        assert LiveAt(after, i, path);
      }
    }
  }

  lemma TookOneReplaces(before: Rows, during: Rows, after: Rows, found: seq<OutputFile>, output: OutputFile, id: nat)
    requires Taken(before, during, found) && TookOne(during, after, output, id) && id in during
    ensures Taken(before, after, found + [output])
  {
    TookOneUnique(during, after, output, id);
    TookOneLists(during, after, found, output, id);
    ListedOneMore(found, output);
    forall i | i in after && !after[i].archived && Listed(found + [output], after[i].path)
      ensures after[i].hash == LastHash(found + [output], after[i].path)
    {
      if i != id {
        assert BothLive(during, i, id);
      }
    }
  }

  lemma TookOneCreates(before: Rows, during: Rows, after: Rows, found: seq<OutputFile>, output: OutputFile, id: nat)
    requires Taken(before, during, found) && TookOne(during, after, output, id) && id !in during
    ensures Taken(before, after, found + [output])
  {
    TookOneUnique(during, after, output, id);
    TookOneLists(during, after, found, output, id);
    ListedOneMore(found, output);
    forall i | i in during && !during[i].archived
      ensures during[i].path != output.path
    {
      assert !LiveAt(during, i, output.path);
    }
    assert !HasLive(before, output.path) by {
      forall i
        ensures !LiveAt(before, i, output.path)
      {
        assert !LiveAt(during, i, output.path);
      }
    }
  }

  lemma TookOneExtends(before: Rows, during: Rows, after: Rows, found: seq<OutputFile>, output: OutputFile, id: nat)
    requires Taken(before, during, found) && TookOne(during, after, output, id)
    ensures Taken(before, after, found + [output])
  {
    if id in during {
      TookOneReplaces(before, during, after, found, output, id);
    } else {
      TookOneCreates(before, during, after, found, output, id);
    }
  }

  /** The record for this path is live and already has this hash. */
  ghost predicate Matches(rows: Rows, output: OutputFile) {
    exists id :: LiveAt(rows, id, output.path) && rows[id].hash == output.hash
  }

  lemma MatchesOne(rows: Rows, output: OutputFile, live: Option<nat>)
    requires OneLivePerPath(rows)
    requires if live.Some? then LiveAt(rows, live.value, output.path) else !HasLive(rows, output.path)
    ensures Matches(rows, output) <==> live.Some? && rows[live.value].hash == output.hash
  {
    if Matches(rows, output) {
      var id :| LiveAt(rows, id, output.path) && rows[id].hash == output.hash;
      assert live.Some? ==> BothLive(rows, id, live.value);
    }
  }

  /** Entry `i` is one that the rows do not match when it is reached: they have no
      live row of its hash, unless an earlier entry has given its path another. */
  ghost predicate Needed(before: Rows, found: seq<OutputFile>, i: nat)
    requires i < |found|
  {
    if Listed(found[..i], found[i].path) then LastHash(found[..i], found[i].path) != found[i].hash
    else !Matches(before, found[i])
  }

  lemma MatchesDuring(before: Rows, during: Rows, found: seq<OutputFile>, i: nat)
    requires i < |found| && OneLivePerPath(before) && Taken(before, during, found[..i])
    ensures Matches(during, found[i]) <==> !Needed(before, found, i)
  {
    var path, hash := found[i].path, found[i].hash;
    if Listed(found[..i], path) {
      assert HasLive(during, path);
      var id :| LiveAt(during, id, path);
      assert forall other :: LiveAt(during, other, path) ==> BothLive(during, id, other) && other == id;
      assert during[id].hash == LastHash(found[..i], path);
    } else {
      forall id
        ensures LiveAt(during, id, path) && during[id].hash == hash <==> LiveAt(before, id, path) && before[id].hash == hash
      {
      }
    }
  }

  /** Of the first `n` entries, none that has to be taken is lost. */
  ghost predicate Arrive(before: Rows, found: seq<OutputFile>, n: nat, lost: set<string>)
    requires n <= |found|
  {
    forall i: nat :: i < n && Needed(before, found, i) ==> found[i].path !in lost
  }

  /** Entry `k` is the first that has to be taken and is lost. */
  ghost predicate FirstLost(before: Rows, found: seq<OutputFile>, k: nat, lost: set<string>) {
    k < |found| && Needed(before, found, k) && found[k].path in lost && Arrive(before, found, k, lost)
  }

  /** What changed, from one state of the rows to the next, was not lost. */
  ghost predicate OnlyArrived(before: Rows, after: Rows, lost: set<string>) {
    forall id :: id in after && (id !in before || before[id].hash != after[id].hash) ==> after[id].path !in lost
  }

  /** Of the first `n` entries, those that have to be taken, in order. */
  ghost function ToTake(before: Rows, found: seq<OutputFile>, n: nat): seq<OutputFile>
    requires n <= |found|
  {
    if n == 0 then []
    else if Needed(before, found, n - 1) then ToTake(before, found, n - 1) + [found[n - 1]]
    else ToTake(before, found, n - 1)
  }

  /** These are the live rows of those files, one by one. */
  ghost predicate RowsOf(rows: Rows, ids: seq<nat>, files: seq<OutputFile>) {
    |ids| == |files| && forall j :: 0 <= j < |ids| ==> LiveAt(rows, ids[j], files[j].path)
  }

  /** One entry seen to: its row was there with its hash, or it arrived and was
      taken as row `id`. */
  ghost predicate Entered(before: Rows, after: Rows, output: OutputFile, lost: set<string>, id: Option<nat>) {
    match id
    case None => Matches(before, output) && after == before
    case Some(i) => !Matches(before, output) && output.path !in lost && TookOne(before, after, output, i)
  }

  /** A pass over a listing: the rows before, between and after its entries. */
  ghost predicate Pass(states: seq<Rows>, found: seq<OutputFile>, lost: set<string>, ids: seq<Option<nat>>) {
    && |states| == |found| + 1 && |ids| == |found|
    && forall i :: 0 <= i < |ids| ==> Entered(states[i], states[i + 1], found[i], lost, ids[i])
  }

  function Somes(ids: seq<Option<nat>>): seq<nat> {
    if ids == [] then []
    else match ids[|ids| - 1]
      case None => Somes(ids[..|ids| - 1])
      case Some(id) => Somes(ids[..|ids| - 1]) + [id]
  }

  lemma PassFurther(states: seq<Rows>, found: seq<OutputFile>, lost: set<string>, ids: seq<Option<nat>>,
                    after: Rows, output: OutputFile, id: Option<nat>)
    requires Pass(states, found, lost, ids) && Entered(states[|found|], after, output, lost, id)
    ensures Pass(states + [after], found + [output], lost, ids + [id])
    ensures Somes(ids + [id]) == if id.Some? then Somes(ids) + [id.value] else Somes(ids)
  {
    assert (ids + [id])[..|ids|] == ids;
  }

  lemma MatchedKeeps(before: Rows, rows: Rows, found: seq<OutputFile>, output: OutputFile)
    requires Taken(before, rows, found) && Matches(rows, output)
    ensures Taken(before, rows, found + [output])
  {
    var id :| LiveAt(rows, id, output.path) && rows[id].hash == output.hash;
    assert rows[id := rows[id].(hash := output.hash)] == rows;
    TookOneExtends(before, rows, rows, found, output, id);
  }

  lemma EnteredKeeps(before: Rows, during: Rows, after: Rows, found: seq<OutputFile>, output: OutputFile,
                     lost: set<string>, id: Option<nat>)
    requires Taken(before, during, found) && Entered(during, after, output, lost, id)
    ensures Taken(before, after, found + [output])
  {
    match id
    case None => MatchedKeeps(before, during, found, output);
    case Some(i) => TookOneExtends(before, during, after, found, output, i);
  }

  lemma {:induction false} PassTakes(states: seq<Rows>, found: seq<OutputFile>, lost: set<string>, ids: seq<Option<nat>>, k: nat)
    requires Pass(states, found, lost, ids) && OneLivePerPath(states[0]) && k <= |found|
    ensures Taken(states[0], states[k], found[..k])
    decreases k
  {
    if k > 0 {
      PassTakes(states, found, lost, ids, k - 1);
      assert Entered(states[k - 1], states[k], found[k - 1], lost, ids[k - 1]);
      EnteredKeeps(states[0], states[k - 1], states[k], found[..k - 1], found[k - 1], lost, ids[k - 1]);
      assert found[..k] == found[..k - 1] + [found[k - 1]];
    }
  }

  /** An entry is taken if and only if it has to be. */
  lemma PassTakesNeeded(states: seq<Rows>, found: seq<OutputFile>, lost: set<string>, ids: seq<Option<nat>>, i: nat)
    requires Pass(states, found, lost, ids) && OneLivePerPath(states[0]) && i < |found|
    ensures ids[i].Some? <==> Needed(states[0], found, i)
    ensures ids[i].Some? ==> found[i].path !in lost
  {
    PassTakes(states, found, lost, ids, i);
    MatchesDuring(states[0], states[i], found, i);
    assert Entered(states[i], states[i + 1], found[i], lost, ids[i]);
  }

  lemma {:induction false} PassOnlyArrived(states: seq<Rows>, found: seq<OutputFile>, lost: set<string>, ids: seq<Option<nat>>, k: nat)
    requires Pass(states, found, lost, ids) && k <= |found|
    ensures OnlyArrived(states[0], states[k], lost)
    decreases k
  {
    if k > 0 {
      PassOnlyArrived(states, found, lost, ids, k - 1);
      assert Entered(states[k - 1], states[k], found[k - 1], lost, ids[k - 1]);
    }
  }

  lemma TookKeepsRows(during: Rows, after: Rows, output: OutputFile, id: nat, ids: seq<nat>, files: seq<OutputFile>)
    requires OneLivePerPath(during) && TookOne(during, after, output, id) && RowsOf(during, ids, files)
    ensures RowsOf(after, ids + [id], files + [output])
  {
    TookOneUnique(during, after, output, id);
  }

  lemma {:induction false} PassCollects(states: seq<Rows>, found: seq<OutputFile>, lost: set<string>, ids: seq<Option<nat>>, k: nat)
    requires Pass(states, found, lost, ids) && OneLivePerPath(states[0]) && k <= |found|
    ensures RowsOf(states[k], Somes(ids[..k]), ToTake(states[0], found, k))
    decreases k
  {
    if k > 0 {
      PassCollects(states, found, lost, ids, k - 1);
      PassTakesNeeded(states, found, lost, ids, k - 1);
      PassTakes(states, found, lost, ids, k - 1);
      assert ids[..k][..k - 1] == ids[..k - 1] && ids[..k][k - 1] == ids[k - 1];
      assert Entered(states[k - 1], states[k], found[k - 1], lost, ids[k - 1]);
      if ids[k - 1].Some? {
        TookKeepsRows(states[k - 1], states[k], found[k - 1], ids[k - 1].value, Somes(ids[..k - 1]), ToTake(states[0], found, k - 1));
      }
    }
  }

  lemma {:induction false} PassTakesNothing(states: seq<Rows>, found: seq<OutputFile>, lost: set<string>, ids: seq<Option<nat>>, k: nat)
    requires Pass(states, found, lost, ids) && k <= |found| && Somes(ids[..k]) == []
    ensures states[k] == states[0]
    decreases k
  {
    if k > 0 {
      assert ids[..k][..k - 1] == ids[..k - 1] && ids[..k][k - 1] == ids[k - 1];
      assert Entered(states[k - 1], states[k], found[k - 1], lost, ids[k - 1]);
      PassTakesNothing(states, found, lost, ids, k - 1);
    }
  }

  /** What a pass comes to. */
  lemma PassTells(states: seq<Rows>, found: seq<OutputFile>, lost: set<string>, ids: seq<Option<nat>>)
    requires Pass(states, found, lost, ids) && OneLivePerPath(states[0])
    ensures var before, after := states[0], states[|found|];
            && Taken(before, after, found) && Arrive(before, found, |found|, lost) && OnlyArrived(before, after, lost)
            && RowsOf(after, Somes(ids), ToTake(before, found, |found|))
            && (Somes(ids) == [] ==> after == before)
  {
    var n := |found|;
    assert found[..n] == found && ids[..n] == ids;
    PassTakes(states, found, lost, ids, n);
    PassOnlyArrived(states, found, lost, ids, n);
    PassCollects(states, found, lost, ids, n);
    forall i: nat | i < n && Needed(states[0], found, i)
      ensures found[i].path !in lost
    {
      PassTakesNeeded(states, found, lost, ids, i);
    }
    if Somes(ids) == [] {
      PassTakesNothing(states, found, lost, ids, n);
    }
  }

  lemma ToTakeNothing(before: Rows, found: seq<OutputFile>, n: nat)
    requires n <= |found|
    ensures ToTake(before, found, n) == [] <==> forall i: nat :: i < n ==> !Needed(before, found, i)
  {
  }

  /** There is nothing to take if and only if every entry has its row already. */
  lemma NothingIffMatched(before: Rows, rows: Rows, found: seq<OutputFile>, ids: seq<nat>)
    requires OneLivePerPath(before) && RowsOf(rows, ids, ToTake(before, found, |found|))
    ensures ids == [] <==> forall i :: 0 <= i < |found| ==> Matches(before, found[i])
  {
    ToTakeNothing(before, found, |found|);
    if ids == [] {
      forall i | 0 <= i < |found|
        ensures Matches(before, found[i])
      {
        assert !Needed(before, found, i);
        if Listed(found[..i], found[i].path) {
          SameHashAsBefore(before, found, i);
        }
      }
    } else {
      var i: nat :| i < |found| && Needed(before, found, i);
      if forall j :: 0 <= j < |found| ==> Matches(before, found[j]) {
        LastHashIsListed(found[..i], found[i].path);
        var j :| 0 <= j < i && found[..i][j] == OutputFile(found[i].path, LastHash(found[..i], found[i].path));
        assert Matches(before, found[j]) && Matches(before, found[i]);
        OneHash(before, found[i], found[j]);
      }
    }
  }

  lemma OneHash(rows: Rows, a: OutputFile, b: OutputFile)
    requires OneLivePerPath(rows) && Matches(rows, a) && Matches(rows, b) && a.path == b.path
    ensures a.hash == b.hash
  {
    var id :| LiveAt(rows, id, a.path) && rows[id].hash == a.hash;
    var other :| LiveAt(rows, other, b.path) && rows[other].hash == b.hash;
    assert BothLive(rows, id, other);
  }

  lemma {:induction false} SameHashAsBefore(before: Rows, found: seq<OutputFile>, i: nat)
    requires i < |found| && Listed(found[..i], found[i].path)
    requires forall k: nat :: k <= i ==> !Needed(before, found, k)
    ensures Matches(before, found[i])
  {
    assert !Needed(before, found, i);
    LastHashIsListed(found[..i], found[i].path);
    var j :| 0 <= j < i && found[..i][j] == OutputFile(found[i].path, LastHash(found[..i], found[i].path));
    assert found[j] == found[i] && !Needed(before, found, j);
    if Listed(found[..j], found[j].path) {
      SameHashAsBefore(before, found, j);
    }
  }

  /** A pass that stops at an entry that is lost. */
  lemma PassStops(states: seq<Rows>, found: seq<OutputFile>, i: nat, lost: set<string>, ids: seq<Option<nat>>)
    requires i < |found| && Pass(states, found[..i], lost, ids) && OneLivePerPath(states[0])
    requires !Matches(states[i], found[i]) && found[i].path in lost
    ensures FirstLost(states[0], found, i, lost) && Taken(states[0], states[i], found[..i])
    ensures OnlyArrived(states[0], states[i], lost)
  {
    PassTells(states, found[..i], lost, ids);
    MatchesDuring(states[0], states[i], found, i);
    forall j: nat | j < i && Needed(states[0], found, j)
      ensures found[j].path !in lost
    {
      assert found[..i][..j] == found[..j] && found[..i][j] == found[j];
      assert Needed(states[0], found[..i], j);
    }
  }

  class Records {
    var rows: Rows
    var next: nat        // ids are never used twice

    ghost predicate Valid()
      reads this
    {
      OneLivePerPath(rows) && forall id :: id in rows ==> id < next
    }

    constructor ()
      ensures Valid() && rows == map[]
    {
      rows, next := map[], 0;
    }

    method GetLive(path: string) returns (id: Option<nat>)
      ensures id.Some? ==> LiveAt(rows, id.value, path)
      ensures id.None? ==> !HasLive(rows, path)
    {
      if i: nat :| i in rows && LiveAt(rows, i, path) {
        id := Some(i);
      } else {
        id := None;
      }
    }

    /** Takes one listed file. One that never reaches storage leaves no trace. */
    method DownloadFile(output: OutputFile, arrives: bool) returns (id: Result<nat, Error>)
      requires Valid()
      modifies this
      ensures Valid()
      ensures id.Success? ==> TookOne(old(rows), rows, output, id.value)
      ensures id.Failure? ==> rows == old(rows)
      ensures id.Failure? <==> !arrives && !Matches(old(rows), output)
      ensures id.Failure? ==> id.error == NeverArrived(output.path)
      ensures Matches(old(rows), output) ==> rows == old(rows)
    {
      var previous := GetLive(output.path);
      MatchesOne(rows, output, previous);
      if previous.Some? && rows[previous.value].hash == output.hash {
        assert rows == rows[previous.value := rows[previous.value].(hash := output.hash)];
        return Success(previous.value);
      }
      if !arrives {
        return Failure(NeverArrived(output.path));
      }
      if previous.Some? {
        id := Success(previous.value);
        rows := rows[previous.value := rows[previous.value].(hash := output.hash)];
      } else {
        id := Success(next);
        rows := rows[next := File(output.path, output.hash, false)];
        next := next + 1;
      }
      TookOneUnique(old(rows), rows, output, id.value);
    }

    /** The first loop: every listed file whose hash is not the row's already. It
        fails if and only if one of those never arrives, having taken those before;
        and otherwise collects the row of each, in order. */
    method TakeListed(found: seq<OutputFile>, lost: set<string>) returns (collected: Result<seq<nat>, Error>)
      requires Valid()
      modifies this
      ensures Valid() && Continues(old(rows), rows)
      ensures collected.Success? <==> Arrive(old(rows), found, |found|, lost)
      ensures collected.Failure? ==> exists k: nat ::
                && FirstLost(old(rows), found, k, lost)
                && Taken(old(rows), rows, found[..k]) && collected.error == NeverArrived(found[k].path)
      ensures OnlyArrived(old(rows), rows, lost)
      ensures collected.Success? ==> Taken(old(rows), rows, found)
      ensures collected.Success? ==> RowsOf(rows, collected.value, ToTake(old(rows), found, |found|))
      ensures collected.Success? ==>
                (collected.value == [] <==> forall i :: 0 <= i < |found| ==> Matches(old(rows), found[i]))
      ensures collected == Success([]) ==> rows == old(rows)
    {
      var taken: seq<nat> := [];
      ghost var states, ids := [rows], [];
      var i := 0;
      while i < |found|
        invariant 0 <= i <= |found| && Valid()
        invariant Pass(states, found[..i], lost, ids) && states[0] == old(rows) && states[i] == rows
        invariant taken == Somes(ids)
      {
        var output := found[i];
        assert found[..i + 1] == found[..i] + [output];
        var before := GetLive(output.path);
        MatchesOne(rows, output, before);
        if before.Some? && rows[before.value].hash == output.hash {
          PassFurther(states, found[..i], lost, ids, rows, output, None);
          states, ids := states + [rows], ids + [None];
        } else {
          var id := DownloadFile(output, output.path !in lost);
          if id.Failure? {
            PassStops(states, found, i, lost, ids);
            return Failure(id.error);
          }
          PassFurther(states, found[..i], lost, ids, rows, output, Some(id.value));
          states, ids := states + [rows], ids + [Some(id.value)];
          taken := taken + [id.value];
        }
        i := i + 1;
      }
      assert found[..i] == found;
      PassTells(states, found, lost, ids);
      NothingIffMatched(old(rows), rows, found, taken);
      collected := Success(taken);
    }

    /** The second loop: records whose path the container no longer has. */
    method ArchiveGone(found: seq<OutputFile>)
      requires Valid()
      modifies this`rows
      ensures Valid() && Continues(old(rows), rows) && rows.Keys == old(rows).Keys
      ensures forall id :: id in rows ==>
                rows[id] == old(rows)[id].(archived := old(rows)[id].archived || !Listed(found, old(rows)[id].path))
    {
      var here := set output | output in found :: output.path;
      assert forall path :: path in here <==> Listed(found, path);
      var rest := set id | id in rows && !rows[id].archived;
      while rest != {}
        invariant rest <= rows.Keys == old(rows).Keys && Valid()
        invariant forall id :: id in rest ==> rows[id] == old(rows)[id] && !rows[id].archived
        invariant forall id :: id in rows && id !in rest ==>
                    rows[id] == old(rows)[id].(archived := old(rows)[id].archived || !Listed(found, old(rows)[id].path))
        decreases rest
      {
        var id :| id in rest;
        if rows[id].path !in here {
          rows := rows[id := rows[id].(archived := true)];
        }
        rest := rest - {id};
      }
    }

    /** Reconciles the records with a listing. An empty listing may be a container
        that could not be read, and is not taken to mean an empty directory. */
    method DiscoverOutputs(found: seq<OutputFile>, lost: set<string>) returns (collected: Result<seq<nat>, Error>)
      requires Valid()
      modifies this
      ensures Valid() && Continues(old(rows), rows)
      ensures collected.Success? <==> Arrive(old(rows), found, |found|, lost)
      ensures lost == {} ==> collected.Success?
      ensures collected.Success? ==> RowsOf(rows, collected.value, ToTake(old(rows), found, |found|))
      ensures collected.Failure? ==> exists k: nat ::
                && FirstLost(old(rows), found, k, lost)
                && Taken(old(rows), rows, found[..k]) && collected.error == NeverArrived(found[k].path)
      ensures OnlyArrived(old(rows), rows, lost)
      ensures collected.Success? && found != [] ==> Mirrors(rows, found)
      ensures collected.Success? ==> forall id, path :: LiveAt(old(rows), id, path) && Listed(found, path) ==> LiveAt(rows, id, path)
      ensures collected.Success? ==> forall id :: id in rows && id !in old(rows) ==> !HasLive(old(rows), rows[id].path)
      ensures found == [] ==> collected == Success([]) && rows == old(rows)
      ensures collected.Success? && old(Mirrors(rows, found)) ==>
                rows == old(rows) && (collected.value == [] <==> Consistent(found))
    {
      collected := TakeListed(found, lost);
      if collected.Failure? {
        return;
      }
      ghost var during := rows;
      if found != [] {
        ArchiveGone(found);
        GoneMirrors(old(rows), during, rows, found);
        ListedStay(old(rows), during, rows, found, collected.value);
      }
      if old(Mirrors(rows, found)) {
        MirrorsAgain(old(rows), during, rows, found);
      }
    }
  }

  ghost predicate GoneArchived(during: Rows, after: Rows, found: seq<OutputFile>) {
    && after.Keys == during.Keys
    && forall id :: id in after ==>
         after[id] == during[id].(archived := during[id].archived || !Listed(found, during[id].path))
  }

  lemma {:induction false} ToTakeListed(before: Rows, found: seq<OutputFile>, n: nat)
    requires n <= |found|
    ensures forall j :: 0 <= j < |ToTake(before, found, n)| ==> ToTake(before, found, n)[j] in found
    decreases n
  {
    if n > 0 {
      ToTakeListed(before, found, n - 1);
    }
  }

  lemma ListedStay(before: Rows, during: Rows, after: Rows, found: seq<OutputFile>, ids: seq<nat>)
    requires RowsOf(during, ids, ToTake(before, found, |found|)) && GoneArchived(during, after, found)
    ensures RowsOf(after, ids, ToTake(before, found, |found|))
  {
    ToTakeListed(before, found, |found|);
    var files := ToTake(before, found, |found|);
    forall j | 0 <= j < |ids|
      ensures LiveAt(after, ids[j], files[j].path)
    {
      assert LiveAt(during, ids[j], files[j].path) && files[j] in found;
      var i :| 0 <= i < |found| && found[i] == files[j];
      assert Listed(found, found[i].path);
    }
  }

  lemma GoneMirrors(before: Rows, during: Rows, after: Rows, found: seq<OutputFile>)
    requires OneLivePerPath(before) && Taken(before, during, found) && GoneArchived(during, after, found)
    ensures Mirrors(after, found)
    ensures forall id, path :: LiveAt(before, id, path) && Listed(found, path) ==> LiveAt(after, id, path)
  {
    forall path
      ensures HasLive(after, path) <==> Listed(found, path)
    {
      if Listed(found, path) {
        assert HasLive(during, path);
        var id :| LiveAt(during, id, path);
        assert LiveAt(after, id, path);
      }
      if HasLive(after, path) {
        var id :| LiveAt(after, id, path);
        assert Listed(found, during[id].path);
      }
    }
  }

  lemma {:induction false} LastHashIsListed(found: seq<OutputFile>, path: string)
    requires Listed(found, path)
    ensures exists i :: 0 <= i < |found| && found[i] == OutputFile(path, LastHash(found, path))
  {
    var n := |found| - 1;
    if found[n].path == path {
      assert found[n] == OutputFile(path, LastHash(found, path));
    } else {
      var i :| 0 <= i < |found| && found[i].path == path;
      assert found[..n][i].path == path;
      LastHashIsListed(found[..n], path);
      var j :| 0 <= j < n && found[..n][j] == OutputFile(path, LastHash(found, path));
      assert found[j] == OutputFile(path, LastHash(found, path));
    }
  }

  /** A second pass over the listing the rows already mirror changes no row, and
      has nothing to take if and only if no path is listed with two hashes. */
  lemma MirrorsAgain(before: Rows, during: Rows, after: Rows, found: seq<OutputFile>)
    requires Mirrors(before, found) && Taken(before, during, found)
    requires if found == [] then after == during else GoneArchived(during, after, found)
    ensures after == before
    ensures (forall i :: 0 <= i < |found| ==> Matches(before, found[i])) <==> Consistent(found)
  {
    forall id | id in during
      ensures id in before && after[id] == before[id]
    {
      if id in before && !before[id].archived {
        assert LiveAt(before, id, before[id].path);
        assert HasLive(before, before[id].path);
      }
    }
    assert after.Keys == before.Keys;
    MatchesIffConsistent(before, found);
  }

  lemma MatchesIffConsistent(rows: Rows, found: seq<OutputFile>)
    requires Mirrors(rows, found)
    ensures (forall i :: 0 <= i < |found| ==> Matches(rows, found[i])) <==> Consistent(found)
  {
    forall i | 0 <= i < |found|
      ensures Matches(rows, found[i]) <==> found[i].hash == LastHash(found, found[i].path)
    {
      assert Listed(found, found[i].path) && HasLive(rows, found[i].path);
      var id :| LiveAt(rows, id, found[i].path);
      if Matches(rows, found[i]) {
        var other :| LiveAt(rows, other, found[i].path) && rows[other].hash == found[i].hash;
        assert BothLive(rows, id, other);
      }
    }
    if Consistent(found) {
      forall i | 0 <= i < |found|
        ensures Matches(rows, found[i])
      {
        assert Listed(found, found[i].path);
        LastHashIsListed(found, found[i].path);
      }
    }
  }
}
