/**
 Which files a listing shows as they are. Two things stand in the way: a file
 that went just before, and a name that the reader does not take for one line,
 or for that name.
 */
module ListingNames {
  import opened Listing
  import opened Text
  import opened Wrappers
  import Outputs

  // --- which files are listed as they are ----------------------------------------------------------

  lemma {:induction false} EscapedBreaks(name: string)
    ensures Unbroken(Escaped(name)) <==> OneLine(name)
  {
    if name != "" {
      EscapedBreaks(name[1..]);
      UnbrokenConcat(Written(name[0]), Escaped(name[1..]));
      assert forall i :: 0 < i < |name| ==> name[i] == name[1..][i - 1];
      assert Unbroken(Written(name[0])) <==> (IsBreak(name[0]) ==> IsEscaped(name[0])) by {
        assert Written(name[0])[0] == name[0] || IsEscaped(name[0]);
      }
      assert OneLine(name) <==> (IsBreak(name[0]) ==> IsEscaped(name[0])) && OneLine(name[1..]);
    }
  }

  /** How many backslashes. */
  function Backs(s: string): nat {
    multiset(s)['\\']
  }

  lemma BacksConcat(a: string, b: string)
    ensures Backs(a + b) == Backs(a) + Backs(b)
  {
  }

  lemma BacksWritten(c: char)
    ensures Backs(Written(c)) == Backs([c]) + if IsEscaped(c) then 1 else 0
  {
    if c == '\\' {
      assert Written(c) == ['\\'] + ['\\'];
    } else if c == '\n' {
      assert Written(c) == ['\\'] + ['n'];
    } else if c == '\r' {
      assert Written(c) == ['\\'] + ['r'];
    }
  }

  lemma BacksTail(s: string)
    requires s != ""
    ensures Backs(s) == Backs([s[0]]) + Backs(s[1..])
  {
    assert s == [s[0]] + s[1..];
    BacksConcat([s[0]], s[1..]);
  }

  lemma PlainTail(s: string)
    requires s != "" && !IsEscaped(s[0]) && Plain(s[1..])
    ensures Plain(s)
  {
    assert forall i :: 0 < i < |s| ==> s[i] == s[1..][i - 1];
  }

  lemma {:induction false} EscapedBacks(name: string)
    ensures Backs(Escaped(name)) >= Backs(name)
    ensures !Plain(name) ==> Backs(Escaped(name)) > Backs(name)
  {
    if name != "" {
      EscapedBacks(name[1..]);
      BacksWritten(name[0]);
      BacksConcat(Written(name[0]), Escaped(name[1..]));
      BacksTail(name);
      if !IsEscaped(name[0]) && Plain(name[1..]) {
        PlainTail(name);
      }
    }
  }

  lemma SpacesHaveNone(s: string)
    requires forall i :: 0 <= i < |s| ==> IsSpace(s[i])
    ensures Backs(s) == 0
  {
    assert '\\' !in s;
  }

  lemma StripBacks(s: string)
    ensures Backs(Strip(s)) == Backs(s)
  {
    LeftBacks(s);
    var left := StripLeft(s);
    StripRightShape(left);
    var n := |StripRight(left)|;
    assert left == left[..n] + left[n..];
    BacksConcat(left[..n], left[n..]);
    SpacesHaveNone(left[n..]);
  }

  lemma {:induction false} LeftBacks(s: string)
    ensures Backs(StripLeft(s)) == Backs(s)
  {
    if s != "" && IsSpace(s[0]) {
      LeftBacks(s[1..]);
      BacksTail(s);
    }
  }

  lemma PathBacks(name: string)
    ensures Backs(PathOf(name)) == Backs(name)
  {
    if PathOf(name) != name {
      assert name == "./" + PathOf(name);
      BacksConcat("./", PathOf(name));
    }
  }

  /** What stripping leaves is the path itself exactly if there was nothing to strip. */
  lemma StrippedPath(name: string)
    requires PathOf(name) != ""
    ensures PathOf(Strip(name)) == PathOf(name) <==> !IsSpace(name[0]) && !IsSpace(name[|name| - 1])
  {
    StripLeftShape(name);
    var left := StripLeft(name);
    StripRightShape(left);
    if PathOf(name) != name {
      assert left == name && name[2..] != "";
      if IsSpace(name[|name| - 1]) && |Strip(name)| >= 2 {
        assert Strip(name)[0] == '.' && Strip(name)[1] == '/';
        assert |PathOf(Strip(name))| < |PathOf(name)|;
      }
    }
  }

  /** The name on a file's own line gives its path if and only if it is clean. */
  lemma ShownIffClean(name: string)
    requires Unbroken(name)
    ensures PathOf(name) != "" && PathOf(Strip(Escaped(name))) == PathOf(name) <==> CleanName(name)
  {
    EscapedEnds(name);
    if PathOf(name) != "" && Plain(name) {
      StrippedPath(name);
    }
    EscapedBacks(name);
    PathBacks(name);
    StripBacks(Escaped(name));
    PathBacks(Strip(Escaped(name)));
  }

  lemma PathOfLine(line: string, limit: Limit)
    requires Unbroken(line) && ReadLine(line, limit).Listed?
    ensures Unbroken(ReadLine(line, limit).output.path)
  {
    var (_, rest) := Parted(line, FirstSpace(line), 1);
    var (_, after) := Parted(rest, FirstTwoSpaces(rest), 2);
    StripUnbroken(after);
  }

  lemma OwnUnbroken(entries: seq<Entry>, j: nat, limit: Limit)
    requires j < |entries| && entries[j].Readable? && Own(entries, j, limit).Listed?
    ensures Unbroken(Own(entries, j, limit).output.path)
  {
    StripUnbroken(Pieces(Escaped(entries[j].name))[0]);
  }

  lemma FurtherUnbroken(name: string, limit: Limit, x: Output)
    requires Listed(x) in Each(Further(name), limit)
    ensures Unbroken(x.path)
  {
    var pieces := Pieces(Escaped(name));
    var m :| 1 <= m < |pieces| && ReadLine(pieces[m], limit) == Listed(x);
    PathOfLine(pieces[m], limit);
  }

  /** No path that is listed has a break in it. */
  lemma ListedUnbroken(entries: seq<Entry>, limit: Limit, k: nat, x: Output)
    requires Lists(entries, limit, k, x)
    ensures Unbroken(x.path)
  {
    if Own(entries, k, limit) == Listed(x) {
      OwnUnbroken(entries, k, limit);
    } else {
      FurtherUnbroken(entries[k].name, limit, x);
    }
  }

  lemma PathUnbroken(name: string)
    ensures Unbroken(PathOf(name)) <==> Unbroken(name)
  {
    if PathOf(name) != name {
      assert name == "./" + PathOf(name);
      UnbrokenConcat("./", PathOf(name));
    }
  }

  /** A name prints one line if and only if `sha256sum` writes away every break in it. */
  lemma OneLineIff(name: string)
    ensures Further(name) == [] <==> OneLine(name)
  {
    EscapedBreaks(name);
  }

  lemma UnbrokenAlone(name: string)
    requires Unbroken(name)
    ensures Further(name) == [] && Pieces(Escaped(name))[0] == Escaped(name)
  {
    EscapedBreaks(name);
  }

  predicate Taken(entries: seq<Entry>, limit: Limit, j: nat)
    requires j < |entries| && entries[j].Readable?
  {
    SizeUsed(entries, j).Some? && Within(SizeUsed(entries, j).value, limit)
  }

  lemma HashIsOwn(entries: seq<Entry>, j: nat)
    requires j < |entries| && entries[j].Readable?
    ensures HashUsed(entries, j) == entries[j].hash <==> Settled(entries, j) && Plain(entries[j].name)
  {
    var hash := entries[j].hash;
    HexPlain(hash);
    if !Settled(entries, j) {
      var at := |Carried(entries, j - 1)| + |Sized(entries[j].size)|;
      assert HashUsed(entries, j)[at] == ' ';
    } else if !Plain(entries[j].name) {
      assert HashUsed(entries, j)[0] == '\\';
    }
  }

  /** The output a file is taken for: there is none unless its name is clean, and
      the size it is taken to have was printed and is within the limit. */
  predicate TakenFor(entries: seq<Entry>, limit: Limit, j: nat, x: Output)
    requires j < |entries| && entries[j].Readable?
  {
    && CleanName(entries[j].name) && Taken(entries, limit, j)
    && x == Output(PathOf(entries[j].name), SizeUsed(entries, j).value, HashUsed(entries, j))
  }

  /** And that is how its own lines list it. */
  lemma NamesItself(entries: seq<Entry>, limit: Limit, j: nat, x: Output)
    requires j < |entries| && entries[j].Readable? && x.path == PathOf(entries[j].name)
    ensures Lists(entries, limit, j, x) <==> TakenFor(entries, limit, j, x)
  {
    var name := entries[j].name;
    PathUnbroken(name);
    if Unbroken(name) {
      UnbrokenAlone(name);
      ShownIffClean(name);
      assert FileLines(entries, j, limit) == [Own(entries, j, limit)];
    } else if Lists(entries, limit, j, x) {
      ListedUnbroken(entries, limit, j, x);
    }
  }

  function Its(e: Entry): Output
    requires e.Readable? && e.size.Some?
  {
    Output(PathOf(e.name), e.size.value, e.hash)
  }

  lemma ByWhom(entries: seq<Entry>, limit: Limit, j: nat, x: Output)
    ensures (exists k :: Lists(entries, limit, k, x)) <==>
              Lists(entries, limit, j, x) || exists k :: k != j && Lists(entries, limit, k, x)
  {
    if k: nat :| Lists(entries, limit, k, x) {
      assert k != j || Lists(entries, limit, j, x);
    }
  }

  lemma TakenAsItIs(entries: seq<Entry>, limit: Limit, j: nat)
    requires j < |entries| && entries[j].Readable? && entries[j].size.Some? && Within(entries[j].size.value, limit)
    ensures TakenFor(entries, limit, j, Its(entries[j])) <==> Settled(entries, j) && CleanName(entries[j].name)
  {
    HashIsOwn(entries, j);
  }

  /** A file that can be read, and is not too large, is listed as it is if and
      only if its name is clean and the file looked at just before it could be
      read: or else if another file's lines say the same. */
  lemma ListedAsItIs(entries: seq<Entry>, limit: Limit, j: nat, found: seq<Output>)
    requires Read(Printed(entries), limit) == Success(found)
    requires j < |entries| && entries[j].Readable? && entries[j].size.Some? && Within(entries[j].size.value, limit)
    ensures Its(entries[j]) in found <==>
              || (Settled(entries, j) && CleanName(entries[j].name))
              || exists k :: k != j && Lists(entries, limit, k, Its(entries[j]))
  {
    var x := Its(entries[j]);
    HoldsIff(entries, limit, found, x);
    NamesItself(entries, limit, j, x);
    TakenAsItIs(entries, limit, j);
    ByWhom(entries, limit, j, x);
  }

  // --- listings of files that are all there -----------------------------------------------------

  /** Every file could be read, and none is too large. */
  predicate AllThere(entries: seq<Entry>, limit: Limit) {
    forall i :: 0 <= i < |entries| ==> entries[i].Readable? && entries[i].size.Some? && Within(entries[i].size.value, limit)
  }

  predicate AllClean(entries: seq<Entry>) {
    forall i :: 0 <= i < |entries| && entries[i].Readable? ==> CleanName(entries[i].name)
  }

  function AllIts(entries: seq<Entry>, limit: Limit): seq<Output>
    requires AllThere(entries, limit)
  {
    seq(|entries|, i requires 0 <= i < |entries| => Its(entries[i]))
  }

  lemma CleanLine(entries: seq<Entry>, j: nat, limit: Limit)
    requires j < |entries| && entries[j].Readable? && CleanName(entries[j].name)
    ensures FileLines(entries, j, limit) == [Own(entries, j, limit)]
    ensures Own(entries, j, limit) ==
              if Taken(entries, limit, j)
              then Listed(Output(PathOf(entries[j].name), SizeUsed(entries, j).value, HashUsed(entries, j)))
              else Skipped
  {
    UnbrokenAlone(entries[j].name);
    ShownIffClean(entries[j].name);
  }

  lemma {:induction false} FlatOnes(parts: seq<seq<Line>>)
    requires forall k :: 0 <= k < |parts| ==> |parts[k]| == 1
    ensures |Flat(parts)| == |parts| && forall k :: 0 <= k < |parts| ==> parts[k] == [Flat(parts)[k]]
  {
    if parts != [] {
      FlatOnes(parts[1..]);
      assert forall k :: 0 < k < |parts| ==> parts[k] == parts[1..][k - 1];
    }
  }

  predicate Full(lines: seq<Line>, found: seq<Output>) {
    |lines| == |found| && forall m :: 0 <= m < |lines| ==> lines[m] == Listed(found[m])
  }

  /** As many outputs as lines: each line is one. */
  lemma {:induction false} GatherFull(lines: seq<Line>, found: seq<Output>)
    ensures Full(lines, found) ==> Gather(lines) == Success(found)
    ensures Gather(lines) == Success(found) ==> |found| <= |lines| && (|found| == |lines| ==> Full(lines, found))
  {
    if lines != [] {
      var rest := Gather(lines[1..]);
      if found != [] {
        GatherFull(lines[1..], found[1..]);
        assert [found[0]] + found[1..] == found;
        assert forall m :: 0 < m < |lines| ==> lines[m] == lines[1..][m - 1];
      }
      if rest.Success? {
        GatherFull(lines[1..], rest.value);
      }
    }
  }

  lemma WholeIsFlat(entries: seq<Entry>, limit: Limit)
    requires AllThere(entries, limit)
    ensures Read(Printed(entries), limit) == Gather(Flat(AllLines(entries, limit)))
  {
    Reads(entries, limit);
    var flat := Flat(AllLines(entries, limit));
    assert flat + [] == flat;
  }

  lemma OneLineFile(entries: seq<Entry>, k: nat, limit: Limit)
    requires k < |entries| && entries[k].Readable? && Unbroken(entries[k].name)
    ensures FileLines(entries, k, limit) == [Own(entries, k, limit)]
  {
    UnbrokenAlone(entries[k].name);
  }

  lemma CleanItself(entries: seq<Entry>, j: nat, limit: Limit)
    requires AllThere(entries, limit) && AllClean(entries) && j < |entries|
    ensures FileLines(entries, j, limit) == [Listed(Its(entries[j]))]
  {
    CleanLine(entries, j, limit);
    HashIsOwn(entries, j);
  }

  lemma ListedSoUnbroken(entries: seq<Entry>, limit: Limit, j: nat)
    requires AllThere(entries, limit) && j < |entries|
    requires Read(Printed(entries), limit) == Success(AllIts(entries, limit))
    ensures Unbroken(entries[j].name)
  {
    var x := Its(entries[j]);
    assert AllIts(entries, limit)[j] == x;
    HoldsIff(entries, limit, AllIts(entries, limit), x);
    var k: nat :| Lists(entries, limit, k, x);
    ListedUnbroken(entries, limit, k, x);
    PathUnbroken(entries[j].name);
  }

  lemma CleanListedWhole(entries: seq<Entry>, limit: Limit)
    requires AllThere(entries, limit) && AllClean(entries)
    ensures Read(Printed(entries), limit) == Success(AllIts(entries, limit))
  {
    var parts := AllLines(entries, limit);
    forall k | 0 <= k < |entries|
      ensures parts[k] == [Listed(AllIts(entries, limit)[k])]
    {
      CleanItself(entries, k, limit);
    }
    FlatOnes(parts);
    assert Full(Flat(parts), AllIts(entries, limit));
    GatherFull(Flat(parts), AllIts(entries, limit));
    WholeIsFlat(entries, limit);
  }

  lemma ListedWholeClean(entries: seq<Entry>, limit: Limit, j: nat)
    requires AllThere(entries, limit) && j < |entries|
    requires Read(Printed(entries), limit) == Success(AllIts(entries, limit))
    ensures CleanName(entries[j].name)
  {
    var parts := AllLines(entries, limit);
    forall k | 0 <= k < |entries|
      ensures |parts[k]| == 1
    {
      ListedSoUnbroken(entries, limit, k);
      OneLineFile(entries, k, limit);
    }
    FlatOnes(parts);
    WholeIsFlat(entries, limit);
    GatherFull(Flat(parts), AllIts(entries, limit));
    assert parts[j] == [Listed(Its(entries[j]))];
    NamesItself(entries, limit, j, Its(entries[j]));
  }

  /** A directory in which nothing went is listed as it is, whole and in order, if
      and only if every name in it is clean. */
  lemma ListedWholeIffClean(entries: seq<Entry>, limit: Limit)
    requires AllThere(entries, limit)
    ensures Read(Printed(entries), limit) == Success(AllIts(entries, limit)) <==> AllClean(entries)
  {
    if AllClean(entries) {
      CleanListedWhole(entries, limit);
    }
    if Read(Printed(entries), limit) == Success(AllIts(entries, limit)) {
      forall j | 0 <= j < |entries|
        ensures CleanName(entries[j].name)
      {
        ListedWholeClean(entries, limit, j);
      }
    }
  }

  /** And so one file. */
  lemma OneFileIffClean(e: Entry, limit: Limit)
    requires e.Readable? && e.size.Some? && Within(e.size.value, limit)
    ensures Read(Printed([e]), limit) == Success([Its(e)]) <==> CleanName(e.name)
  {
    ListedWholeIffClean([e], limit);
    assert AllIts([e], limit) == [Its(e)];
    assert CleanName(e.name) ==> AllClean([e]);
    assert AllClean([e]) ==> CleanName([e][0].name);
  }

  // --- files that went ---------------------------------------------------------------------------

  predicate Names(found: seq<Output>, path: string) {
    exists i :: 0 <= i < |found| && found[i].path == path
  }

  /** No other file's lines say the path of this one. */
  ghost predicate Alone(entries: seq<Entry>, limit: Limit, j: nat)
    requires j < |entries| && entries[j].Readable?
  {
    forall k, x :: k != j && Lists(entries, limit, k, x) ==> x.path != PathOf(entries[j].name)
  }

  /** As it is when the others are clean, and have other paths. */
  lemma CleanAreAlone(entries: seq<Entry>, limit: Limit, j: nat)
    requires j < |entries| && entries[j].Readable?
    requires forall k :: 0 <= k < |entries| && k != j && entries[k].Readable? ==>
               CleanName(entries[k].name) && PathOf(entries[k].name) != PathOf(entries[j].name)
    ensures Alone(entries, limit, j)
  {
    forall k: nat, x | k != j && Lists(entries, limit, k, x)
      ensures x.path != PathOf(entries[j].name)
    {
      CleanLine(entries, k, limit);
    }
  }

  lemma FoundIff(entries: seq<Entry>, limit: Limit, j: nat, found: seq<Output>, x: Output)
    requires Read(Printed(entries), limit) == Success(found)
    requires j < |entries| && entries[j].Readable? && Alone(entries, limit, j) && x.path == PathOf(entries[j].name)
    ensures x in found <==> TakenFor(entries, limit, j, x)
  {
    HoldsIff(entries, limit, found, x);
    NamesItself(entries, limit, j, x);
  }

  lemma SaidByAnother(entries: seq<Entry>, limit: Limit, j: nat, found: seq<Output>)
    requires Read(Printed(entries), limit) == Success(found)
    requires j < |entries| && entries[j].Readable? && !Alone(entries, limit, j)
    ensures Names(found, PathOf(entries[j].name))
  {
    var k: nat, x :| k != j && Lists(entries, limit, k, x) && x.path == PathOf(entries[j].name);
    HoldsIff(entries, limit, found, x);
    var i :| 0 <= i < |found| && found[i] == x;
    assert found[i].path == x.path;
  }

  /** A file is named in the listing if and only if its name is clean, and the size
      it is taken to have was printed and is within the limit; or else if another
      file's lines say its path. With no such other it is named with that size, and
      with its own hash if and only if the file before it could be read. */
  lemma NamedIff(entries: seq<Entry>, limit: Limit, j: nat, found: seq<Output>)
    requires Read(Printed(entries), limit) == Success(found)
    requires j < |entries| && entries[j].Readable?
    ensures Names(found, PathOf(entries[j].name)) <==>
              (CleanName(entries[j].name) && Taken(entries, limit, j)) || !Alone(entries, limit, j)
    ensures Alone(entries, limit, j) ==>
              forall x :: x in found && x.path == PathOf(entries[j].name) ==>
                Some(x.size) == SizeUsed(entries, j) && (x.hash == entries[j].hash <==> Settled(entries, j))
  {
    if Alone(entries, limit, j) {
      NamedAlone(entries, limit, j, found);
    } else {
      SaidByAnother(entries, limit, j, found);
    }
  }

  lemma NamedAlone(entries: seq<Entry>, limit: Limit, j: nat, found: seq<Output>)
    requires Read(Printed(entries), limit) == Success(found)
    requires j < |entries| && entries[j].Readable? && Alone(entries, limit, j)
    ensures Names(found, PathOf(entries[j].name)) <==> CleanName(entries[j].name) && Taken(entries, limit, j)
    ensures forall x :: x in found && x.path == PathOf(entries[j].name) ==>
              Some(x.size) == SizeUsed(entries, j) && (x.hash == entries[j].hash <==> Settled(entries, j))
  {
    var path := PathOf(entries[j].name);
    forall x | x in found && x.path == path
      ensures CleanName(entries[j].name) && Taken(entries, limit, j)
      ensures Some(x.size) == SizeUsed(entries, j) && (x.hash == entries[j].hash <==> Settled(entries, j))
    {
      FoundIff(entries, limit, j, found, x);
      TakenForSays(entries, limit, j, x);
    }
    if Names(found, path) {
      var i :| 0 <= i < |found| && found[i].path == path;
      assert found[i] in found;
    }
    if CleanName(entries[j].name) && Taken(entries, limit, j) {
      TakenIsNamed(entries, limit, j, found);
    }
  }

  lemma TakenForSays(entries: seq<Entry>, limit: Limit, j: nat, x: Output)
    requires j < |entries| && entries[j].Readable? && TakenFor(entries, limit, j, x)
    ensures CleanName(entries[j].name) && Taken(entries, limit, j)
    ensures Some(x.size) == SizeUsed(entries, j) && (x.hash == entries[j].hash <==> Settled(entries, j))
  {
    HashIsOwn(entries, j);
  }

  lemma TakenIsNamed(entries: seq<Entry>, limit: Limit, j: nat, found: seq<Output>)
    requires Read(Printed(entries), limit) == Success(found)
    requires j < |entries| && entries[j].Readable? && Alone(entries, limit, j)
    requires CleanName(entries[j].name) && Taken(entries, limit, j)
    ensures Names(found, PathOf(entries[j].name))
  {
    var x := Output(PathOf(entries[j].name), SizeUsed(entries, j).value, HashUsed(entries, j));
    FoundIff(entries, limit, j, found, x);
    var i :| 0 <= i < |found| && found[i] == x;
    assert found[i].path == PathOf(entries[j].name);
  }

  lemma HiddenSize(entries: seq<Entry>, j: nat)
    requires 2 <= j < |entries| && entries[j].Readable?
    requires entries[j - 2] == Gone(None) && entries[j - 1] == Gone(None) && Settled(entries, j - 2)
    ensures SizeUsed(entries, j) == None
  {
    assert RunStart(entries, j - 1) == RunStart(entries, j - 2) == None;
  }

  /** A name with a newline in it is two lines for the loop. With no file under
      either, that is two looks at nothing; the next file is then not listed by its
      own line, whatever the limit. */
  lemma NewlineHidesTheNext(entries: seq<Entry>, limit: Limit, j: nat, found: seq<Output>)
    requires Read(Printed(entries), limit) == Success(found)
    requires 2 <= j < |entries| && entries[j].Readable?
    requires entries[j - 2] == Gone(None) && entries[j - 1] == Gone(None) && Settled(entries, j - 2)
    ensures Names(found, PathOf(entries[j].name)) <==> !Alone(entries, limit, j)
  {
    HiddenSize(entries, j);
    NamedIff(entries, limit, j, found);
  }

  // --- names that are not what they seem -----------------------------------------------------------

  lemma PiecesOfTwo(first: string, end: char, second: string)
    requires Unbroken(first) && Unbroken(second) && IsBreak(end)
    ensures Pieces(first + [end] + second) == [first, second]
  {
    FirstBreakAfter(first, end, second);
    var s := first + [end] + second;
    assert s[..|first|] == first && s[|first| + 1..] == second;
  }

  lemma OneFileListing(e: Entry, limit: Limit)
    requires e.Readable?
    ensures Read(Printed([e]), limit)
         == Gather([OwnLine(e.size, HashShown(e.hash, e.name), Pieces(Escaped(e.name))[0], limit)] + Each(Further(e.name), limit))
  {
    Reads([e], limit);
    var lines := FileLines([e], 0, limit);
    assert AllLines([e], limit) == [lines];
    assert lines + [] + [] == lines;
  }

  lemma StripSpace(name: string, space: char)
    requires name != "" && !IsSpace(name[0]) && !IsSpace(name[|name| - 1]) && IsSpace(space)
    ensures Strip(name + [space]) == name
  {
    assert StripLeft(name + [space]) == name + [space];
    assert (name + [space])[..|name|] == name;
    assert StripRight(name) == name;
  }

  /** A name that ends in a space lists the file that is named without it. */
  lemma TrailingSpaceLost(name: string, space: char, size: nat, hash: Digest, limit: Limit)
    requires CleanName(name) && IsSpace(space) && !IsBreak(space) && Within(size, limit)
    ensures Read(Printed([Readable(Some(size), hash, name + [space])]), limit) == Success([Output(PathOf(name), size, hash)])
  {
    var longer := name + [space];
    var x := Output(PathOf(name), size, hash);
    assert Plain(longer) && Unbroken(longer);
    UnbrokenAlone(longer);
    EscapedEnds(longer);
    StripSpace(name, space);
    OneFileListing(Readable(Some(size), hash, longer), limit);
    assert OwnLine(Some(size), hash, longer, limit) == Listed(x);
    assert [Listed(x)] + Each([], limit) == [Listed(x)];
    GatherFull([Listed(x)], [x]);
  }

  const LINE_SEPARATOR: char := '\U{2028}'

  function Spelled(x: Output): string {
    Sized(Some(x.size)) + " " + x.hash + "  " + x.path
  }

  lemma CleanOwnLine(size: nat, hash: string, name: string, limit: Limit)
    requires CleanName(name) && Within(size, limit)
    ensures OwnLine(Some(size), hash, name, limit) == Listed(Output(PathOf(name), size, hash))
  {
    StrippedPath(name);
  }

  /** A name with a line separator in it is two lines to the reader. */
  lemma TwoLines(first: string, second: string)
    requires Unbroken(first) && Plain(first) && Unbroken(second) && Plain(second)
    ensures var name := first + [LINE_SEPARATOR] + second;
            Plain(name) && Pieces(Escaped(name)) == [first, second] && Further(name) == [second]
  {
    EscapedEnds(first + [LINE_SEPARATOR] + second);
    PiecesOfTwo(first, LINE_SEPARATOR, second);
  }

  lemma TwoLineListing(size: Option<nat>, hash: Digest, first: string, second: string, limit: Limit)
    requires Unbroken(first) && Plain(first) && Unbroken(second) && Plain(second)
    ensures Read(Printed([Readable(size, hash, first + [LINE_SEPARATOR] + second)]), limit)
         == Gather([OwnLine(size, hash, first, limit), ReadLine(second, limit)])
  {
    TwoLines(first, second);
    OneFileListing(Readable(size, hash, first + [LINE_SEPARATOR] + second), limit);
    var own, forged := OwnLine(size, hash, first, limit), ReadLine(second, limit);
    assert Each([second], limit) == [forged];
    assert [own] + [forged] == [own, forged];
  }

  /** One file, whose name holds a line separator, lists itself under another name
      and any other entry at all. */
  lemma NameForgesAnEntry(first: string, x: Output, size: nat, hash: Digest, limit: Limit)
    requires CleanName(first) && Within(size, limit)
    requires CleanName(x.path) && PathOf(x.path) == x.path && IsField(x.hash) && Plain(x.hash) && Within(x.size, limit)
    ensures Read(Printed([Readable(Some(size), hash, first + [LINE_SEPARATOR] + Spelled(x))]), limit)
         == Success([Output(PathOf(first), size, hash), x])
  {
    var own := Output(PathOf(first), size, hash);
    PlainSpelled(x);
    TwoLineListing(Some(size), hash, first, Spelled(x), limit);
    CleanOwnLine(size, hash, first, limit);
    LineReads(Some(x.size), x.hash, x.path, limit);
    CleanOwnLine(x.size, x.hash, x.path, limit);
    GatherFull([Listed(own), Listed(x)], [own, x]);
  }

  lemma PlainSpelled(x: Output)
    requires Plain(x.hash) && Plain(x.path) && Unbroken(x.hash) && Unbroken(x.path)
    ensures Plain(Spelled(x)) && Unbroken(Spelled(x))
  {
    SizedIsNumber(Some(x.size));
    forall i | 0 <= i < |Decimal(x.size)|
      ensures !IsEscaped(Decimal(x.size)[i])
    {
      assert Decimal(x.size)[i] in Decimal(x.size);
    }
  }

  lemma FurtherFails(entries: seq<Entry>, limit: Limit, k: nat)
    requires k < |entries| && entries[k].Readable?
    requires Further(entries[k].name) != [] && ReadLine(Further(entries[k].name)[0], limit).Broken?
    ensures Fails(entries, limit, k)
  {
    var further := Further(entries[k].name);
    assert FileLines(entries, k, limit)[1] == Each(further, limit)[0];
  }

  /** And one file can stop the whole listing. */
  lemma NameStopsTheListing(entries: seq<Entry>, limit: Limit, k: nat, first: string, line: string)
    requires Unbroken(first) && Plain(first) && Unbroken(line) && Plain(line) && ReadLine(line, limit).Broken?
    requires k < |entries| && entries[k].Readable? && entries[k].name == first + [LINE_SEPARATOR] + line
    ensures Read(Printed(entries), limit).Failure?
  {
    TwoLines(first, line);
    FurtherFails(entries, limit, k);
    FailsIff(entries, limit);
  }

  /** For one, with this on its second line. */
  lemma DashesBreak(limit: Limit)
    ensures ReadLine("--7 b  c", limit) == Broken
  {
    var line, rest := "--7 b  c", "b  c";
    assert FirstSpace(line) == 3;
    assert line[..3] == "--7" && line[4..] == rest;
    assert TwoSpaces(rest, 1) && !TwoSpaces(rest, 0);
    assert FirstTwoSpaces(rest) == 1;
    assert rest[..1] == "b" && rest[3..] == "c";
    SizeOfDashes();
  }

  lemma SizeOfDashes()
    ensures WithoutDashes("--7") == "7" && Parsed("7") == Some(7) && PathOf(Strip("c")) == "c"
  {
    assert "--7"[1..] == "-7" && "-7"[1..] == "7";
  }

  // --- what the records then say ------------------------------------------------------------

  /** What reconciling takes from a listing. */
  function AsListing(found: seq<Output>): seq<Outputs.OutputFile> {
    seq(|found|, i requires 0 <= i < |found| => Outputs.OutputFile(found[i].path, found[i].hash))
  }

  /** A live record for each path that is named, with a hash it was named with. */
  lemma MirrorsNames(found: seq<Output>, rows: Outputs.Rows, path: string)
    requires Outputs.Mirrors(rows, AsListing(found))
    ensures Outputs.HasLive(rows, path) <==> Names(found, path)
    ensures forall id :: Outputs.LiveAt(rows, id, path) ==> exists x :: x in found && x.path == path && x.hash == rows[id].hash
  {
    var listing := AsListing(found);
    if Outputs.Listed(listing, path) {
      var i :| 0 <= i < |listing| && listing[i].path == path;
      assert found[i].path == path;
    }
    if Names(found, path) {
      var i :| 0 <= i < |found| && found[i].path == path;
      assert listing[i].path == path;
    }
    forall id | Outputs.LiveAt(rows, id, path)
      ensures exists x :: x in found && x.path == path && x.hash == rows[id].hash
    {
      assert Outputs.HasLive(rows, path);
      Outputs.LastHashIsListed(listing, path);
      var i :| 0 <= i < |listing| && listing[i] == Outputs.OutputFile(path, Outputs.LastHash(listing, path));
      assert found[i] in found && found[i].path == path;
    }
  }

  /** Once the records mirror such a listing, a file that is there has a live
      record if and only if it was named; and one that no other file's lines name
      has its hash there if and only if the file before it could be read. Otherwise
      the record is archived, or made to claim bytes that the file does not have. */
  lemma RecordsFollowTheListing(entries: seq<Entry>, limit: Limit, j: nat, found: seq<Output>, rows: Outputs.Rows)
    requires Read(Printed(entries), limit) == Success(found)
    requires j < |entries| && entries[j].Readable?
    requires Outputs.Mirrors(rows, AsListing(found))
    ensures Outputs.HasLive(rows, PathOf(entries[j].name)) <==>
              (CleanName(entries[j].name) && Taken(entries, limit, j)) || !Alone(entries, limit, j)
    ensures Alone(entries, limit, j) ==>
              forall id :: Outputs.LiveAt(rows, id, PathOf(entries[j].name)) ==>
                (rows[id].hash == entries[j].hash <==> Settled(entries, j))
  {
    NamedIff(entries, limit, j, found);
    MirrorsNames(found, rows, PathOf(entries[j].name));
  }
}
