/**
 Where an attached file lands under a Session's uploads: a path that cannot
 leave the directory, and a name nothing else there has.
 */
module MountNames {
  import opened Text
  import opened Wrappers

  const MAX_PATH: nat := 512
  const MOUNT_NAME_ATTEMPTS: nat := 20

  datatype Error = Missing | TooLong | BadCharacter | Absolute | Outside | Taken | NoFreeName | NotCopied

  predicate BadPart(part: string) {
    part == "" || part == "." || part == ".."
  }

  predicate GoodParts(parts: seq<string>) {
    forall i :: 0 <= i < |parts| ==> !BadPart(parts[i])
  }

  /** Relative, with no part that is empty or that walks anywhere. */
  predicate ValidPath(path: string) {
    '\0' !in path && '\\' !in path && GoodParts(Split(path, '/'))
  }

  /** Where a path leads from a directory: `..` goes up, and out of it if there is
      nothing to go up from; an empty part and `.` go nowhere. */
  function Walk(fields: seq<string>): Option<seq<string>> {
    if fields == [] then Some([])
    else
      var last := fields[|fields| - 1];
      match Walk(fields[..|fields| - 1])
      case None => None
      case Some(at) =>
        if last == "" || last == "." then Some(at)
        else if last != ".." then Some(at + [last])
        else if at == [] then None
        else Some(at[..|at| - 1])
  }

  lemma {:induction false} WalkedNoFurther(fields: seq<string>)
    ensures Walk(fields).Some? ==> |Walk(fields).value| <= |fields|
  {
    if fields != [] {
      WalkedNoFurther(fields[..|fields| - 1]);
    }
  }

  lemma {:induction false} GoodPartsWalk(fields: seq<string>)
    ensures GoodParts(fields) <==> Walk(fields) == Some(fields)
  {
    if fields != [] {
      var n := |fields| - 1;
      GoodPartsWalk(fields[..n]);
      WalkedNoFurther(fields[..n]);
      assert fields == fields[..n] + [fields[n]];
    }
  }

  /** A path is valid if and only if it leads where it says, part by part: so never
      out of the directory, nor to a file by two names. */
  lemma ValidPathLeadsWhereItSays(path: string)
    ensures ValidPath(path) <==> '\0' !in path && '\\' !in path && Walk(Split(path, '/')) == Some(Split(path, '/'))
  {
    GoodPartsWalk(Split(path, '/'));
  }

  // --- the path ------------------------------------------------------------------

  function Wanted(requested: Option<string>, fallback: string): string {
    Strip(if requested.Some? && requested.value != "" then requested.value else fallback)
  }

  /** `PurePosixPath(...).parts` of a relative path: it drops the parts that do
      nothing. */
  function PosixParts(fields: seq<string>): seq<string> {
    if fields == [] then []
    else if fields[0] == "" || fields[0] == "." then PosixParts(fields[1..])
    else [fields[0]] + PosixParts(fields[1..])
  }

  predicate AnyBad(fields: seq<string>) {
    exists i :: 0 <= i < |fields| && BadPart(fields[i])
  }

  function MountPath(requested: Option<string>, fallback: string): Result<string, Error> {
    var candidate := Wanted(requested, fallback);
    if candidate == "" then Failure(Missing)
    else if |candidate| > MAX_PATH then Failure(TooLong)
    else if '\0' in candidate || '\\' in candidate then Failure(BadCharacter)
    else if candidate[0] == '/' then Failure(Absolute)
    else if AnyBad(Split(candidate, '/')) then Failure(Outside)
    else Success(Join(PosixParts(Split(candidate, '/')), '/'))
  }

  lemma {:induction false} NothingDropped(fields: seq<string>)
    requires forall i :: 0 <= i < |fields| ==> !BadPart(fields[i])
    ensures PosixParts(fields) == fields
  {
    if fields != [] {
      NothingDropped(fields[1..]);
      assert !BadPart(fields[0]);
    }
  }

  /** The request, or the file's name where there is none, is honoured as it stands,
      stripped, or not at all; and it is honoured exactly when that is a valid path
      of an allowed length. */
  lemma MountPathExact(requested: Option<string>, fallback: string)
    ensures var asked := if requested == None || requested == Some("") then fallback else requested.value;
            && Wanted(requested, fallback) == Strip(asked)
            && (MountPath(requested, fallback).Success? <==> ValidPath(Strip(asked)) && |Strip(asked)| <= 512)
            && (MountPath(requested, fallback).Success? ==> MountPath(requested, fallback).value == Strip(asked))
  {
    var wanted := Wanted(requested, fallback);
    var fields := Split(wanted, '/');
    if !AnyBad(fields) {
      NothingDropped(fields);
      JoinSplit(wanted, '/');
    }
    if wanted != "" && wanted[0] == '/' {
      assert BadPart(fields[0]);
    }
    if wanted == "" {
      assert BadPart(fields[0]);
    }
  }

  /** Which refusal a path gets: the first of these that applies. */
  lemma MountPathRefused(requested: Option<string>, fallback: string)
    requires MountPath(requested, fallback).Failure?
    ensures var path, error := Wanted(requested, fallback), MountPath(requested, fallback).error;
            var short := 0 < |path| <= 512;
            var plain := '\0' !in path && '\\' !in path;
            && (error.Missing? <==> path == "")
            && (error.TooLong? <==> |path| > 512)
            && (error.BadCharacter? <==> short && !plain)
            && (error.Absolute? <==> short && plain && path[0] == '/')
            && (error.Outside? <==> short && plain && path[0] != '/')
  {
  }

  // --- stepping a name aside ---------------------------------------------------------

  /** Where the last dot is, if there is one. */
  function LastDot(name: string): (k: Option<nat>)
    ensures k.Some? ==> k.value < |name| && name[k.value] == '.'
  {
    if name == "" then None
    else if name[|name| - 1] == '.' then Some(|name| - 1)
    else LastDot(name[..|name| - 1])
  }

  /** Where the number goes: before the suffix, or at the end. */
  function StepAt(name: string): (k: nat)
    ensures k <= |name|
  {
    match LastDot(name)
    case None => |name|
    case Some(k) => if k == 0 then |name| else k
  }

  /** `report.pdf` to `report_1.pdf` */
  function SteppedName(name: string, attempt: nat): string {
    if attempt == 0 then name
    else
      var k := StepAt(name);
      name[..k] + "_" + Decimal(attempt) + name[k..]
  }

  lemma {:induction false} LastDotIs(stem: string, suffix: string)
    requires '.' !in suffix
    ensures LastDot(stem + "." + suffix) == Some(|stem|)
    decreases |suffix|
  {
    var name := stem + "." + suffix;
    if suffix == "" {
      assert name[|name| - 1] == '.';
    } else {
      var n := |suffix| - 1;
      assert suffix[n] in suffix && suffix == suffix[..n] + [suffix[n]];
      assert name[|name| - 1] == suffix[n] && name[..|name| - 1] == stem + "." + suffix[..n];
      LastDotIs(stem, suffix[..n]);
    }
  }

  /** The number goes in front of the last suffix. */
  lemma SteppedBeforeSuffix(stem: string, suffix: string, attempt: nat)
    requires stem != "" && '.' !in suffix && attempt > 0
    ensures SteppedName(stem + "." + suffix, attempt) == stem + "_" + Decimal(attempt) + "." + suffix
  {
    LastDotIs(stem, suffix);
    Halves(stem, suffix);
    Regroup(stem + "_" + Decimal(attempt), ".", suffix);
  }

  lemma Halves(stem: string, suffix: string)
    ensures (stem + "." + suffix)[..|stem|] == stem && (stem + "." + suffix)[|stem|..] == "." + suffix
  {
  }

  lemma Regroup(a: string, b: string, c: string)
    ensures a + (b + c) == a + b + c
  {
  }

  /** A name with no suffix, or with nothing in front of it, gets it at the end. */
  lemma SteppedAtEnd(name: string, attempt: nat)
    requires attempt > 0 && forall i :: 1 <= i < |name| ==> name[i] != '.'
    ensures SteppedName(name, attempt) == name + "_" + Decimal(attempt)
  {
    assert name[..|name|] == name && name[|name|..] == "";
  }

  /** Every attempt tries a name no other attempt does. */
  lemma SteppedNameInjective(name: string, i: nat, j: nat)
    requires SteppedName(name, i) == SteppedName(name, j)
    ensures i == j
  {
    var k := StepAt(name);
    if i > 0 && j > 0 {
      var s, t := SteppedName(name, i), SteppedName(name, j);
      assert |Decimal(i)| == |s| - |name| - 1 && |Decimal(j)| == |t| - |name| - 1;
      assert s[k + 1..k + 1 + |Decimal(i)|] == Decimal(i);
      assert t[k + 1..k + 1 + |Decimal(j)|] == Decimal(j);
      DecimalInjective(i, j);
    }
  }

  /** Two lists of fields run together: the two that meet become one. */
  function Merged(s: seq<string>, t: seq<string>): (r: seq<string>)
    requires s != [] && t != []
    ensures |r| == |s| + |t| - 1
    ensures forall i :: 0 <= i < |s| - 1 ==> r[i] == s[i]
    ensures r[|s| - 1] == s[|s| - 1] + t[0]
    ensures forall i :: |s| <= i < |r| ==> r[i] == t[i - |s| + 1]
  {
    s[..|s| - 1] + [s[|s| - 1] + t[0]] + t[1..]
  }

  lemma MergedBehind(first: string, s: seq<string>, t: seq<string>)
    requires s != [] && t != []
    ensures Merged([first] + s, t) == [first] + Merged(s, t)
  {
  }

  lemma MergedLonger(c: char, s: seq<string>, t: seq<string>)
    requires s != [] && t != []
    ensures Merged([[c] + s[0]] + s[1..], t) == [[c] + Merged(s, t)[0]] + Merged(s, t)[1..]
  {
    if |s| == 1 {
      assert ([c] + s[0]) + t[0] == [c] + (s[0] + t[0]);
    }
  }

  /** Splitting a concatenation: only the two fields that meet are changed. */
  lemma {:induction false} SplitConcat(a: string, b: string, sep: char)
    ensures Split(a + b, sep) == Merged(Split(a, sep), Split(b, sep))
    decreases |a|
  {
    var t := Split(b, sep);
    if a == "" {
      assert a + b == b;
      assert [] + t[0] == t[0];
    } else {
      assert (a + b)[0] == a[0] && (a + b)[1..] == a[1..] + b;
      SplitConcat(a[1..], b, sep);
      var rest := Split(a[1..], sep);
      if a[0] == sep {
        MergedBehind("", rest, t);
      } else {
        MergedLonger(a[0], rest, t);
      }
    }
  }

  lemma SplitPrefixed(middle: string, b: string, sep: char)
    requires sep !in middle
    ensures |Split(middle + b, sep)| == |Split(b, sep)|
    ensures Split(middle + b, sep)[0] == middle + Split(b, sep)[0]
    ensures forall i :: 0 < i < |Split(b, sep)| ==> Split(middle + b, sep)[i] == Split(b, sep)[i]
  {
    SplitConcat(middle, b, sep);
    SplitWhole(middle, sep);
  }

  /** Putting something with no separator into a path changes one part of it. */
  lemma SplitInserted(a: string, middle: string, b: string, sep: char)
    requires sep !in middle
    ensures |Split(a + (middle + b), sep)| == |Split(a + b, sep)| >= |Split(a, sep)|
    ensures var k := |Split(a, sep)| - 1;
            Split(a + (middle + b), sep)[k] == Split(a, sep)[k] + (middle + Split(b, sep)[0])
    ensures forall i :: 0 <= i < |Split(a + b, sep)| && i != |Split(a, sep)| - 1 ==>
              Split(a + (middle + b), sep)[i] == Split(a + b, sep)[i]
  {
    SplitPrefixed(middle, b, sep);
    SplitConcat(a, b, sep);
    SplitConcat(a, middle + b, sep);
  }

  lemma LongerPartIsGood(before: string, digits: string, after: string)
    requires digits != ""
    ensures !BadPart(before + (("_" + digits) + after))
  {
    var part := before + (("_" + digits) + after);
    assert part[|before|] == '_' && |part| >= 2;
  }

  lemma InsertedParts(a: string, digits: string, b: string)
    requires digits != "" && '/' !in digits
    requires GoodParts(Split(a + b, '/'))
    ensures GoodParts(Split(a + (("_" + digits) + b), '/'))
  {
    var s := Split(a, '/');
    SplitInserted(a, "_" + digits, b, '/');
    LongerPartIsGood(s[|s| - 1], digits, Split(b, '/')[0]);
  }

  /** A name stepped aside is still a valid path. */
  lemma SteppedNameValid(name: string, attempt: nat)
    requires ValidPath(name)
    ensures ValidPath(SteppedName(name, attempt))
  {
    if attempt > 0 {
      var k := StepAt(name);
      var digits := Decimal(attempt);
      assert name == name[..k] + name[k..];
      assert SteppedName(name, attempt) == name[..k] + (("_" + digits) + name[k..]);
      assert forall c :: c in SteppedName(name, attempt) ==> c in name || c == '_' || c in digits;
      InsertedParts(name[..k], digits, name[k..]);
    }
  }

  // --- the search -----------------------------------------------------------------------

  predicate Tried(requested: string, taken: set<string>, attempts: nat) {
    forall i :: 0 <= i < attempts ==> SteppedName(requested, i) in taken
  }

  /** Names tried and found taken are that many different names. */
  lemma {:induction false} TriedFill(requested: string, taken: set<string>, attempts: nat)
    requires Tried(requested, taken, attempts)
    ensures attempts <= |taken|
    decreases attempts
  {
    if attempts > 0 {
      var last := SteppedName(requested, attempts - 1);
      forall i | 0 <= i < attempts - 1
        ensures SteppedName(requested, i) in taken - {last}
      {
        if SteppedName(requested, i) == last {
          SteppedNameInjective(requested, i, attempts - 1);
        }
      }
      TriedFill(requested, taken - {last}, attempts - 1);
    }
  }

  predicate LeastFree(requested: string, taken: set<string>, attempt: nat, name: string) {
    name == SteppedName(requested, attempt) && name !in taken && Tried(requested, taken, attempt)
  }

  ghost predicate FirstFree(requested: string, taken: set<string>, name: string) {
    exists k: nat :: k < MOUNT_NAME_ATTEMPTS && LeastFree(requested, taken, k, name)
  }

  /** The name of the least attempt that is free; failing that, twenty were taken. */
  method FreeName(requested: string, taken: set<string>) returns (name: Result<string, Error>)
    ensures name.Success? ==> FirstFree(requested, taken, name.value)
    ensures name.Failure? ==> name.error == NoFreeName
    ensures name.Failure? <==> Tried(requested, taken, 20)
    ensures |taken| < 20 ==> name.Success?
  {
    var attempt := 0;
    while attempt < MOUNT_NAME_ATTEMPTS
      invariant 0 <= attempt <= MOUNT_NAME_ATTEMPTS
      invariant Tried(requested, taken, attempt)
    {
      var candidate := SteppedName(requested, attempt);
      if candidate !in taken {
        assert LeastFree(requested, taken, attempt, candidate);
        return Success(candidate);
      }
      attempt := attempt + 1;
    }
    TriedFill(requested, taken, MOUNT_NAME_ATTEMPTS);
    name := Failure(NoFreeName);
  }

  /** The name found is nobody's and stays in the directory; and a request is
      stepped aside only when its own name is taken. */
  lemma FirstFreeIsSound(requested: string, taken: set<string>, name: string)
    requires ValidPath(requested) && FirstFree(requested, taken, name)
    ensures ValidPath(name) && name !in taken
    ensures name == requested <==> requested !in taken
  {
    var k: nat :| k < MOUNT_NAME_ATTEMPTS && LeastFree(requested, taken, k, name);
    SteppedNameValid(requested, k);
    if k > 0 {
      assert SteppedName(requested, 0) in taken;
    }
  }

  // --- attaching ---------------------------------------------------------------------------

  predicate Mountable(wanted: string) {
    ValidPath(wanted) && |wanted| <= MAX_PATH
  }

  /** A Session's bindings: which file is at which path. */
  class SessionFiles {
    var bindings: map<string, string>

    constructor ()
      ensures bindings == map[]
    {
      bindings := map[];
    }

    /** What one attachment answers and leaves: the binding that is already
        there, a refusal that changes nothing, or one new binding at the first
        free name. `copied` is whether the transfer into the sandbox worked. */
    method AttachLiveFile(file: string, filename: string, path: Option<string>, copied: bool)
      returns (at: Result<string, Error>)
      modifies this
      ensures at.Failure? ==> bindings == old(bindings)
      ensures at.Success? ==> bindings == old(bindings)[at.value := file]
      ensures at.Success? && at.value in old(bindings) ==> old(bindings)[at.value] == file
      ensures !Mountable(Wanted(path, filename)) ==> at == MountPath(path, filename)
      ensures Mountable(Wanted(path, filename)) ==> (
                var wanted := Wanted(path, filename);
                if wanted in old(bindings) && old(bindings)[wanted] == file then at == Success(wanted)
                else if wanted in old(bindings) && path.Some? then at == Failure(Taken)
                else if Tried(wanted, old(bindings.Keys), MOUNT_NAME_ATTEMPTS) then at == Failure(NoFreeName)
                else if !copied then at == Failure(NotCopied)
                else at.Success? && FirstFree(wanted, old(bindings.Keys), at.value))
      ensures at.Success? ==> ValidPath(at.value)
    {
      MountPathExact(path, filename);
      var mounted := MountPath(path, filename);
      if mounted.Failure? {
        return Failure(mounted.error);
      }
      var requested := mounted.value;
      if requested in bindings && bindings[requested] == file {
        assert bindings[requested := file] == bindings;
        return Success(requested);
      }
      if path.Some? && requested in bindings {
        return Failure(Taken);
      }
      var name := FreeName(requested, bindings.Keys);
      if name.Failure? {
        return name;
      }
      FirstFreeIsSound(requested, bindings.Keys, name.value);
      var before := bindings;
      bindings := bindings[name.value := file];
      if !copied {
        bindings := before;
        return Failure(NotCopied);
      }
      at := name;
    }

    /** Repeating a request finds the binding it made if and only if that landed
        on the name asked for. One that was stepped aside is made again. */
    method AttachTwice(file: string, filename: string, path: Option<string>)
      returns (first: Result<string, Error>, second: Result<string, Error>)
      modifies this
      ensures Mountable(Wanted(path, filename)) && Wanted(path, filename) !in old(bindings) ==>
                first == Success(Wanted(path, filename))
      ensures first.Success? ==> (second == first <==> first.value == Wanted(path, filename))
      ensures first.Success? && first.value != Wanted(path, filename) ==>
                (second.Failure? <==> Tried(Wanted(path, filename), old(bindings.Keys) + {first.value}, 20))
    {
      ghost var wanted := Wanted(path, filename);
      assert SteppedName(wanted, 0) == wanted;
      first := AttachLiveFile(file, filename, path, true);
      ghost var between := bindings.Keys;
      if wanted !in old(bindings) && first.Success? {
        FirstFreeIsSound(wanted, old(bindings.Keys), first.value);
      }
      assert first.Success? ==> between == old(bindings.Keys) + {first.value};
      second := AttachLiveFile(file, filename, path, true);
      if first.Success? && second.Success? && first.value != wanted {
        FirstFreeIsSound(wanted, between, second.value);
      }
    }
  }
}
