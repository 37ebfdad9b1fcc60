/**
 Reading a directory out of what a shell loop printed about it: for each file
 its size, then its hash and name. A file that goes while it is being looked at
 leaves a line begun and not ended, and takes the next file's line with it; and
 what breaks a line for the reader need not break one for the shell.
 */
module Listing {
  import opened Text
  import opened Wrappers

  datatype Output = Output(path: string, size: nat, hash: string)

  datatype Error = NotANumber

  /** `max_output_bytes`, unless oversized files are asked for. */
  type Limit = Option<nat>

  predicate Within(size: nat, limit: Limit) {
    limit.Some? ==> size <= limit.value
  }

  // --- one line ---------------------------------------------------------------------

  function FirstSpace(s: string): (k: nat)
    ensures k <= |s| && (k < |s| ==> s[k] == ' ')
    ensures forall i :: 0 <= i < k ==> s[i] != ' '
  {
    if s == "" || s[0] == ' ' then 0 else 1 + FirstSpace(s[1..])
  }

  predicate TwoSpaces(s: string, i: int) {
    0 <= i < |s| - 1 && s[i] == ' ' && s[i + 1] == ' '
  }

  function FirstTwoSpaces(s: string): (k: nat)
    ensures k == |s| || TwoSpaces(s, k)
    ensures forall i :: 0 <= i < k ==> !TwoSpaces(s, i)
  {
    if s == "" || TwoSpaces(s, 0) then 0
    else
      var rest := FirstTwoSpaces(s[1..]);
      assert forall i :: 0 < i < |s| ==> (TwoSpaces(s, i) <==> TwoSpaces(s[1..], i - 1));
      1 + rest
  }

  /** `partition`: what is before a separator found at `k`, and what is after. */
  function Parted(s: string, k: nat, width: nat): (string, string)
    requires k == |s| || k + width <= |s|
  {
    if k == |s| then (s, "") else (s[..k], s[k + width..])
  }

  function WithoutDashes(s: string): string {
    if s != "" && s[0] == '-' then WithoutDashes(s[1..]) else s
  }

  function WithoutDotSlash(s: string): string {
    if |s| >= 2 && s[0] == '.' && s[1] == '/' then s[2..] else s
  }

  datatype Line = Skipped | Broken | Listed(output: Output)

  function ReadLine(line: string, limit: Limit): Line {
    var (size, rest) := Parted(line, FirstSpace(line), 1);
    var (hash, after) := Parted(rest, FirstTwoSpaces(rest), 2);
    ReadFields(size, hash, WithoutDotSlash(Strip(after)), limit)
  }

  function ReadFields(size: string, hash: string, path: string, limit: Limit): Line {
    var digits := WithoutDashes(size);
    if hash == "" || path == "" || Parsed(digits).None? then Skipped
    else if |size| > |digits| + 1 then Broken
    else if |size| == |digits| + 1 && Parsed(digits).value > 0 then Skipped
    else if !Within(Parsed(digits).value, limit) then Skipped
    else Listed(Output(path, Parsed(digits).value, hash))
  }

  function After(before: seq<Output>, rest: Result<seq<Output>, Error>): Result<seq<Output>, Error> {
    if rest.Success? then Success(before + rest.value) else rest
  }

  function WithLine(line: Line, rest: Result<seq<Output>, Error>): Result<seq<Output>, Error> {
    match line
    case Skipped => rest
    case Broken => Failure(NotANumber)
    case Listed(output) => After([output], rest)
  }

  function Gather(lines: seq<Line>): Result<seq<Output>, Error> {
    if lines == [] then Success([]) else WithLine(lines[0], Gather(lines[1..]))
  }

  function Flat(parts: seq<seq<Line>>): seq<Line> {
    if parts == [] then [] else parts[0] + Flat(parts[1..])
  }

  function Each(lines: seq<string>, limit: Limit): seq<Line> {
    seq(|lines|, i requires 0 <= i < |lines| => ReadLine(lines[i], limit))
  }

  function Read(stdout: string, limit: Limit): Result<seq<Output>, Error> {
    Gather(Each(Lines(stdout), limit))
  }

  /** It fails if some line cannot be read, and otherwise holds what they list. */
  lemma {:induction false} GatherExact(lines: seq<Line>, x: Output)
    ensures Gather(lines).Failure? <==> Broken in lines
    ensures Gather(lines).Success? ==> (x in Gather(lines).value <==> Listed(x) in lines)
  {
    if lines != [] {
      GatherExact(lines[1..], x);
      assert lines == [lines[0]] + lines[1..];
    }
  }

  /** One line more has been read. */
  lemma AfterOneMore(before: seq<Output>, line: Line, rest: Result<seq<Output>, Error>)
    ensures After(before, WithLine(line, rest)) ==
              match line
              case Skipped => After(before, rest)
              case Broken => Failure(NotANumber)
              case Listed(output) => After(before + [output], rest)
  {
    if line.Listed? && rest.Success? {
      assert before + ([line.output] + rest.value) == (before + [line.output]) + rest.value;
    }
  }

  lemma AfterAll(rest: Result<seq<Output>, Error>, before: seq<Output>)
    ensures After([], rest) == rest && After(before, Success([])) == Success(before)
  {
    assert before + [] == before;
    if rest.Success? {
      assert [] + rest.value == rest.value;
    }
  }

  method ListFiles(stdout: string, limit: Limit) returns (found: Result<seq<Output>, Error>)
    ensures found == Read(stdout, limit)
  {
    var lines := Lines(stdout);
    ghost var each := Each(lines, limit);
    var listed: seq<Output> := [];
    var i := 0;
    assert each[0..] == each;
    AfterAll(Gather(each), []);
    while i < |lines|
      invariant 0 <= i <= |lines|
      invariant Gather(each) == After(listed, Gather(each[i..]))
    {
      AfterOneMore(listed, each[i], Gather(each[i + 1..]));
      assert each[i..][0] == each[i] && each[i..][1..] == each[i + 1..];
      match ReadLine(lines[i], limit) {
        case Skipped =>
        case Broken => return Failure(NotANumber);
        case Listed(output) => listed := listed + [output];
      }
      i := i + 1;
    }
    AfterAll(Success([]), listed);
    found := Success(listed);
  }

  // --- what the loop prints -------------------------------------------------------------

  predicate IsHex(c: char) {
    '0' <= c <= '9' || 'a' <= c <= 'f'
  }

  type Digest = h: string | h != "" && forall i :: 0 <= i < |h| ==> IsHex(h[i]) witness "0"

  /** What came of looking at one line of what `find` printed: a size, if `stat`
      gave one, and then a hash and the name, or nothing more. */
  datatype Entry =
    | Readable(size: Option<nat>, hash: Digest, name: string)
    | Gone(lastSize: Option<nat>)

  function Sized(size: Option<nat>): string {
    match size case None => "-1" case Some(n) => Decimal(n)
  }

  /** `sha256sum` writes some characters in two, and then marks the line. */
  predicate IsEscaped(c: char) {
    c == '\\' || c == '\n' || c == '\r'
  }

  predicate Plain(name: string) {
    forall i :: 0 <= i < |name| ==> !IsEscaped(name[i])
  }

  function Written(c: char): string {
    if c == '\\' then "\\\\" else if c == '\n' then "\\n" else if c == '\r' then "\\r" else [c]
  }

  function Escaped(name: string): string {
    if name == "" then "" else Written(name[0]) + Escaped(name[1..])
  }

  function HashShown(hash: string, name: string): string {
    if Plain(name) then hash else "\\" + hash
  }

  function EntryText(e: Entry): string {
    match e
    case Readable(size, hash, name) => Sized(size) + " " + HashShown(hash, name) + "  " + Escaped(name) + ['\n']
    case Gone(lastSize) => Sized(lastSize) + " "
  }

  function Printed(entries: seq<Entry>): string {
    if entries == [] then "" else EntryText(entries[0]) + Printed(entries[1..])
  }

  /** The path of the file that a line of `find` names. */
  function PathOf(name: string): string {
    WithoutDotSlash(name)
  }

  /** A name that one line can hold, that `sha256sum` writes as it is, and that
      stripping leaves alone. */
  predicate CleanName(name: string) {
    PathOf(name) != "" && Plain(name) && Unbroken(name) && !IsSpace(name[0]) && !IsSpace(name[|name| - 1])
  }

  // --- what is made of each file ----------------------------------------------------------

  /** The file looked at just before could be read, or there was none. */
  predicate Settled(entries: seq<Entry>, j: nat)
    requires j <= |entries|
  {
    j == 0 || entries[j - 1].Readable?
  }

  /** The size printed for the first of the run of vanished files that ends here. */
  function RunStart(entries: seq<Entry>, i: nat): Option<nat>
    requires i < |entries| && entries[i].Gone?
    decreases i
  {
    if Settled(entries, i) then entries[i].lastSize else RunStart(entries, i - 1)
  }

  /** What the run has left on the line after that size. */
  function Carried(entries: seq<Entry>, i: nat): string
    requires i < |entries| && entries[i].Gone?
    decreases i
  {
    if Settled(entries, i) then "" else Carried(entries, i - 1) + Sized(entries[i].lastSize) + " "
  }

  /** The line that is open when file `i` is looked at. */
  function OpenLine(entries: seq<Entry>, i: nat): string
    requires i <= |entries|
  {
    if Settled(entries, i) then "" else Sized(RunStart(entries, i - 1)) + " " + Carried(entries, i - 1)
  }

  /** The size a file is taken to have: its own, or that of the first to vanish
      right before it. */
  function SizeUsed(entries: seq<Entry>, j: nat): Option<nat>
    requires j < |entries| && entries[j].Readable?
  {
    if Settled(entries, j) then entries[j].size else RunStart(entries, j - 1)
  }

  /** The hash it is taken to have: everything since that size. */
  function HashUsed(entries: seq<Entry>, j: nat): string
    requires j < |entries| && entries[j].Readable?
  {
    var shown := HashShown(entries[j].hash, entries[j].name);
    if Settled(entries, j) then shown else Carried(entries, j - 1) + Sized(entries[j].size) + " " + shown
  }

  /** A line with this size, this hash and this name on it. */
  function OwnLine(size: Option<nat>, hash: string, name: string, limit: Limit): Line {
    var path := PathOf(Strip(name));
    if path == "" || size.None? || !Within(size.value, limit) then Skipped else Listed(Output(path, size.value, hash))
  }

  function Own(entries: seq<Entry>, j: nat, limit: Limit): Line
    requires j < |entries| && entries[j].Readable?
  {
    OwnLine(SizeUsed(entries, j), HashUsed(entries, j), Pieces(Escaped(entries[j].name))[0], limit)
  }

  /** The lines that a name goes on to print after its own. */
  function Further(name: string): seq<string> {
    Pieces(Escaped(name))[1..]
  }

  /** What the lines that file `j` ends come to, each read by itself. */
  function FileLines(entries: seq<Entry>, j: nat, limit: Limit): seq<Line>
    requires j < |entries|
  {
    match entries[j]
    case Gone(_) => []
    case Readable(_, _, name) => [Own(entries, j, limit)] + Each(Further(name), limit)
  }

  function AllLines(entries: seq<Entry>, limit: Limit): seq<seq<Line>> {
    seq(|entries|, i requires 0 <= i < |entries| => FileLines(entries, i, limit))
  }

  /** The last line may have no end. */
  function LastLine(entries: seq<Entry>): seq<Line> {
    if Settled(entries, |entries|) then [] else [Skipped]
  }

  // --- reading back what was printed ----------------------------------------------------------

  predicate Single(s: string) {
    forall i :: 0 <= i < |s| ==> !TwoSpaces(s, i)
  }

  lemma {:induction false} FirstSpaceAfter(s: string, rest: string)
    requires ' ' !in s
    ensures FirstSpace(s + " " + rest) == |s|
  {
    var whole := s + " " + rest;
    assert forall i :: 0 <= i < |s| ==> whole[i] == s[i];
    assert whole[|s|] == ' ';
  }

  lemma FirstTwoSpacesAfter(s: string, rest: string)
    requires Single(s) && s != "" && s[|s| - 1] != ' '
    ensures FirstTwoSpaces(s + "  " + rest) == |s|
  {
    var whole := s + "  " + rest;
    assert TwoSpaces(whole, |s|);
    forall i | 0 <= i < |s|
      ensures !TwoSpaces(whole, i)
    {
      assert !TwoSpaces(s, i);
    }
  }

  lemma SizedIsNumber(size: Option<nat>)
    ensures ' ' !in Sized(size) && Unbroken(Sized(size)) && Sized(size) != ""
    ensures size.Some? ==> WithoutDashes(Sized(size)) == Sized(size) && Parsed(Sized(size)) == size
    ensures size.None? ==> WithoutDashes(Sized(size)) == "1" && Parsed("1") == Some(1)
  {
    if size.Some? {
      DigitsUnbroken(size.value);
      ParsedDecimal(size.value);
      assert Sized(size)[0] in Decimal(size.value);
    } else {
      assert "-1"[1..] == "1";
    }
  }

  lemma SingleGrows(carried: string, word: string)
    requires Single(carried) && (carried == "" || carried[|carried| - 1] == ' ')
    requires word != "" && ' ' !in word
    ensures Single(carried + word) && Single(carried + word + " ")
  {
    var s := carried + word + " ";
    forall i | 0 <= i < |s|
      ensures !TwoSpaces(s, i)
    {
      if i < |carried| - 1 {
        assert !TwoSpaces(carried, i);
      } else if |carried| <= i < |carried| + |word| {
        assert s[i] in word;
      } else if i == |carried| - 1 {
        assert s[i + 1] in word;
      }
    }
    forall i | 0 <= i < |carried + word|
      ensures !TwoSpaces(carried + word, i)
    {
      assert !TwoSpaces(s, i);
    }
  }

  /** A line left open at the end: there is no path on it. */
  lemma OpenLineSkipped(size: Option<nat>, carried: string, limit: Limit)
    requires Single(carried)
    ensures ReadLine(Sized(size) + " " + carried, limit) == Skipped
  {
    var line := Sized(size) + " " + carried;
    SizedIsNumber(size);
    FirstSpaceAfter(Sized(size), carried);
    assert line[|Sized(size)| + 1..] == carried;
    assert FirstTwoSpaces(carried) == |carried|;
  }

  lemma HexPlain(hash: Digest)
    ensures ' ' !in hash && '\\' !in hash && Unbroken(hash)
  {
    forall i | 0 <= i < |hash|
      ensures hash[i] != ' ' && hash[i] != '\\' && !IsBreak(hash[i])
    {
      assert IsHex(hash[i]);
    }
  }

  lemma ShownWord(hash: Digest, name: string)
    ensures HashShown(hash, name) != "" && ' ' !in HashShown(hash, name) && Unbroken(HashShown(hash, name))
  {
    HexPlain(hash);
  }

  predicate Opening(s: string) {
    Single(s) && Unbroken(s) && (s == "" || s[|s| - 1] == ' ')
  }

  lemma {:induction false} CarriedOpening(entries: seq<Entry>, i: nat)
    requires i < |entries| && entries[i].Gone?
    ensures Opening(Carried(entries, i))
    decreases i
  {
    if !Settled(entries, i) {
      CarriedOpening(entries, i - 1);
      SizedIsNumber(entries[i].lastSize);
      SingleGrows(Carried(entries, i - 1), Sized(entries[i].lastSize));
    }
  }

  predicate IsField(s: string) {
    Single(s) && Unbroken(s) && s != "" && s[|s| - 1] != ' '
  }

  lemma WordIsField(word: string)
    requires word != "" && ' ' !in word && Unbroken(word)
    ensures IsField(word)
  {
    SingleGrows("", word);
    assert "" + word == word;
    assert word[|word| - 1] in word;
  }

  lemma GrownField(carried: string, size: Option<nat>, word: string)
    requires Opening(carried) && word != "" && ' ' !in word && Unbroken(word)
    ensures IsField(carried + Sized(size) + " " + word)
  {
    SizedIsNumber(size);
    SingleGrows(carried, Sized(size));
    SingleGrows(carried + Sized(size) + " ", word);
    assert word[|word| - 1] in word;
  }

  lemma HashUsedIsField(entries: seq<Entry>, j: nat)
    requires j < |entries| && entries[j].Readable?
    ensures IsField(HashUsed(entries, j))
  {
    var shown := HashShown(entries[j].hash, entries[j].name);
    ShownWord(entries[j].hash, entries[j].name);
    if Settled(entries, j) {
      WordIsField(shown);
    } else {
      CarriedOpening(entries, j - 1);
      GrownField(Carried(entries, j - 1), entries[j].size, shown);
    }
  }

  lemma SizeParted(size: Option<nat>, rest: string)
    ensures var line := Sized(size) + " " + rest; Parted(line, FirstSpace(line), 1) == (Sized(size), rest)
  {
    var line := Sized(size) + " " + rest;
    SizedIsNumber(size);
    FirstSpaceAfter(Sized(size), rest);
    assert line[..|Sized(size)|] == Sized(size) && line[|Sized(size)| + 1..] == rest;
  }

  lemma FieldParted(field: string, name: string)
    requires IsField(field)
    ensures var rest := field + "  " + name; Parted(rest, FirstTwoSpaces(rest), 2) == (field, name)
  {
    var rest := field + "  " + name;
    FirstTwoSpacesAfter(field, name);
    assert rest[..|field|] == field && rest[|field| + 2..] == name;
  }

  /** A line with one size, one hash field and a name, whatever they are made of. */
  lemma LineReads(size: Option<nat>, field: string, name: string, limit: Limit)
    requires IsField(field)
    ensures ReadLine(Sized(size) + " " + field + "  " + name, limit) == OwnLine(size, field, name, limit)
  {
    Together(Sized(size) + " ", field, "  ", name);
    SizeParted(size, field + "  " + name);
    FieldParted(field, name);
    FieldsRead(size, field, WithoutDotSlash(Strip(name)), limit);
  }

  lemma Together(a: string, b: string, c: string, d: string)
    ensures a + b + c + d == a + (b + c + d)
  {
  }

  lemma FieldsRead(size: Option<nat>, field: string, path: string, limit: Limit)
    requires field != ""
    ensures ReadFields(Sized(size), field, path, limit)
         == if path == "" || size.None? || !Within(size.value, limit) then Skipped else Listed(Output(path, size.value, field))
  {
    SizedIsNumber(size);
  }

  lemma {:induction false} EscapedEnds(name: string)
    ensures '\r' !in Escaped(name) && '\n' !in Escaped(name)
    ensures Plain(name) ==> Escaped(name) == name
  {
    if name != "" {
      EscapedEnds(name[1..]);
      assert name == [name[0]] + name[1..];
      assert Plain(name) ==> Plain(name[1..]);
    }
  }

  lemma JoinedLine(first: string, carried: string, size: string, shown: string)
    ensures first + " " + carried + (size + " " + shown + "  ") == first + " " + (carried + size + " " + shown) + "  "
  {
  }

  lemma Assoc(a: string, b: string, c: string, d: string)
    ensures a + (b + c + d) == (a + b) + c + d
  {
  }

  /** What is on the line of file `j`, with what was open before it. */
  lemma LineOf(entries: seq<Entry>, j: nat)
    requires j < |entries| && entries[j].Readable?
    ensures OpenLine(entries, j) + EntryText(entries[j])
         == (Sized(SizeUsed(entries, j)) + " " + HashUsed(entries, j) + "  ") + Escaped(entries[j].name) + ['\n']
  {
    var e := entries[j];
    var shown := HashShown(e.hash, e.name);
    var head := Sized(e.size) + " " + shown + "  ";
    Assoc(OpenLine(entries, j), head, Escaped(e.name), ['\n']);
    if Settled(entries, j) {
      assert "" + head == head;
    } else {
      JoinedLine(Sized(RunStart(entries, j - 1)), Carried(entries, j - 1), Sized(e.size), shown);
    }
  }

  lemma EachConcat(a: seq<string>, b: seq<string>, limit: Limit)
    ensures Each(a + b, limit) == Each(a, limit) + Each(b, limit)
  {
    assert |Each(a + b, limit)| == |Each(a, limit) + Each(b, limit)|;
    forall i | 0 <= i < |a + b|
      ensures Each(a + b, limit)[i] == (Each(a, limit) + Each(b, limit))[i]
    {
      assert (a + b)[i] == if i < |a| then a[i] else b[i - |a|];
    }
  }

  lemma EachFirst(line: string, more: seq<string>, limit: Limit)
    ensures Each([line] + more, limit) == [ReadLine(line, limit)] + Each(more, limit)
  {
    EachConcat([line], more, limit);
    assert Each([line], limit)[0] == ReadLine(line, limit);
  }

  lemma FileReads(size: Option<nat>, field: string, name: string, rest: string, limit: Limit)
    requires IsField(field)
    ensures Each(Lines((Sized(size) + " " + field + "  ") + Escaped(name) + (['\n'] + rest)), limit)
         == [OwnLine(size, field, Pieces(Escaped(name))[0], limit)] + Each(Further(name), limit) + Each(Lines(rest), limit)
  {
    var before, first := Sized(size) + " " + field + "  ", Pieces(Escaped(name))[0];
    assert Unbroken(before) by {
      SizedIsNumber(size);
    }
    EscapedEnds(name);
    LinesOfPieces(before, Escaped(name), rest);
    EachConcat([before + first] + Further(name), Lines(rest), limit);
    EachFirst(before + first, Further(name), limit);
    LineReads(size, field, first, limit);
  }

  lemma ReadableReads(entries: seq<Entry>, j: nat, rest: string, limit: Limit)
    requires j < |entries| && entries[j].Readable?
    ensures Each(Lines(OpenLine(entries, j) + EntryText(entries[j]) + rest), limit)
         == FileLines(entries, j, limit) + Each(Lines(rest), limit)
  {
    LineOf(entries, j);
    HashUsedIsField(entries, j);
    var before := Sized(SizeUsed(entries, j)) + " " + HashUsed(entries, j) + "  ";
    Regrouped(before + Escaped(entries[j].name), ['\n'], rest);
    FileReads(SizeUsed(entries, j), HashUsed(entries, j), entries[j].name, rest, limit);
  }

  lemma GoneReads(entries: seq<Entry>, i: nat)
    requires i < |entries| && entries[i].Gone?
    ensures OpenLine(entries, i) + EntryText(entries[i]) == OpenLine(entries, i + 1)
  {
    var size := Sized(entries[i].lastSize);
    if Settled(entries, i) {
      assert "" + (size + " ") == size + " " + "";
    } else {
      var first, carried := Sized(RunStart(entries, i - 1)), Carried(entries, i - 1);
      assert first + " " + carried + (size + " ") == first + " " + (carried + size + " ");
    }
  }

  lemma NothingAfterGone(entries: seq<Entry>, limit: Limit)
    ensures Each(Lines(OpenLine(entries, |entries|)), limit) == LastLine(entries)
  {
    var n := |entries|;
    if !Settled(entries, n) {
      CarriedOpening(entries, n - 1);
      LeftOpen(RunStart(entries, n - 1), Carried(entries, n - 1), limit);
    }
  }

  lemma LeftOpen(first: Option<nat>, carried: string, limit: Limit)
    requires Opening(carried)
    ensures Each(Lines(Sized(first) + " " + carried), limit) == [Skipped]
  {
    var open := Sized(first) + " " + carried;
    SizedIsNumber(first);
    assert Unbroken(open);
    OpenLineSkipped(first, carried, limit);
    assert FirstBreak(open) == |open| && Lines(open) == [open];
  }

  lemma PrintedFrom(entries: seq<Entry>, i: nat)
    requires i < |entries|
    ensures OpenLine(entries, i) + Printed(entries[i..]) == OpenLine(entries, i) + EntryText(entries[i]) + Printed(entries[i + 1..])
  {
    var text, rest := EntryText(entries[i]), Printed(entries[i + 1..]);
    assert Printed(entries[i..]) == text + rest by {
      assert entries[i..][0] == entries[i] && entries[i..][1..] == entries[i + 1..];
    }
    Regrouped(OpenLine(entries, i), text, rest);
  }

  lemma FlatFrom(parts: seq<seq<Line>>, i: nat, last: seq<Line>)
    requires i < |parts|
    ensures Flat(parts[i..]) + last == parts[i] + (Flat(parts[i + 1..]) + last)
  {
    assert parts[i..][0] == parts[i] && parts[i..][1..] == parts[i + 1..];
  }

  lemma {:induction false} ReadsFrom(entries: seq<Entry>, i: nat, limit: Limit)
    requires i <= |entries|
    ensures Each(Lines(OpenLine(entries, i) + Printed(entries[i..])), limit)
         == Flat(AllLines(entries, limit)[i..]) + LastLine(entries)
    decreases |entries| - i
  {
    if i == |entries| {
      NothingAfterGone(entries, limit);
      assert OpenLine(entries, i) + Printed(entries[i..]) == OpenLine(entries, i);
      assert Flat(AllLines(entries, limit)[i..]) + LastLine(entries) == LastLine(entries);
    } else {
      ReadsFrom(entries, i + 1, limit);
      PrintedFrom(entries, i);
      ReadsNext(entries, i, Printed(entries[i + 1..]), limit);
      FlatFrom(AllLines(entries, limit), i, LastLine(entries));
    }
  }

  lemma ReadsNext(entries: seq<Entry>, i: nat, rest: string, limit: Limit)
    requires i < |entries|
    ensures Each(Lines(OpenLine(entries, i) + EntryText(entries[i]) + rest), limit)
         == FileLines(entries, i, limit) + Each(Lines(OpenLine(entries, i + 1) + rest), limit)
  {
    match entries[i]
    case Readable(_, _, _) =>
      assert OpenLine(entries, i + 1) + rest == rest;
      ReadableReads(entries, i, rest, limit);
    case Gone(_) =>
      GoneReads(entries, i);
  }

  /** Whatever went while a listing was made, and whatever the names are, its
      lines come to those of each file in turn. */
  lemma Reads(entries: seq<Entry>, limit: Limit)
    ensures Each(Lines(Printed(entries)), limit) == Flat(AllLines(entries, limit)) + LastLine(entries)
    ensures Read(Printed(entries), limit) == Gather(Flat(AllLines(entries, limit)) + LastLine(entries))
  {
    ReadsFrom(entries, 0, limit);
    assert entries[0..] == entries && "" + Printed(entries) == Printed(entries);
    assert AllLines(entries, limit)[0..] == AllLines(entries, limit);
  }

  // --- who lists what ----------------------------------------------------------------------------

  /** A name whose own breaks `sha256sum` writes away. */
  predicate OneLine(name: string) {
    forall i :: 0 <= i < |name| && IsBreak(name[i]) ==> IsEscaped(name[i])
  }

  /** File `k` puts an output on the listing: by the line that is its own, or by
      one that its name goes on to print. */
  predicate Lists(entries: seq<Entry>, limit: Limit, k: nat, x: Output) {
    k < |entries| && Listed(x) in FileLines(entries, k, limit)
  }

  predicate Fails(entries: seq<Entry>, limit: Limit, k: nat) {
    k < |entries| && Broken in FileLines(entries, k, limit)
  }

  ghost predicate InSome(parts: seq<seq<Line>>, line: Line) {
    exists k :: 0 <= k < |parts| && line in parts[k]
  }

  lemma {:induction false} FlatHas(parts: seq<seq<Line>>, line: Line)
    ensures line in Flat(parts) <==> InSome(parts, line)
  {
    if parts != [] {
      FlatHas(parts[1..], line);
      assert parts == [parts[0]] + parts[1..];
      if InSome(parts[1..], line) {
        var k :| 0 <= k < |parts[1..]| && line in parts[1..][k];
        assert line in parts[k + 1];
      }
    }
  }

  lemma ListingHas(entries: seq<Entry>, limit: Limit, line: Line)
    requires line != Skipped
    ensures line in Flat(AllLines(entries, limit)) + LastLine(entries) <==>
              exists k: nat :: k < |entries| && line in FileLines(entries, k, limit)
  {
    var parts := AllLines(entries, limit);
    FlatHas(parts, line);
    if k: nat :| k < |entries| && line in FileLines(entries, k, limit) {
      assert line in parts[k];
    }
  }

  /** The whole listing fails if and only if some name goes on, after a break that
      is not escaped, with what reads as a size that is no number. */
  lemma FailsIff(entries: seq<Entry>, limit: Limit)
    ensures Read(Printed(entries), limit).Failure? <==> exists k :: Fails(entries, limit, k)
  {
    Reads(entries, limit);
    GatherExact(Flat(AllLines(entries, limit)) + LastLine(entries), Output("", 0, ""));
    ListingHas(entries, limit, Broken);
    if k: nat :| k < |entries| && Broken in FileLines(entries, k, limit) {
      assert Fails(entries, limit, k);
    }
  }

  /** Otherwise it holds exactly what each file lists by itself. */
  lemma HoldsIff(entries: seq<Entry>, limit: Limit, found: seq<Output>, x: Output)
    requires Read(Printed(entries), limit) == Success(found)
    ensures x in found <==> exists k :: Lists(entries, limit, k, x)
  {
    Reads(entries, limit);
    GatherExact(Flat(AllLines(entries, limit)) + LastLine(entries), x);
    ListingHas(entries, limit, Listed(x));
    if k: nat :| k < |entries| && Listed(x) in FileLines(entries, k, limit) {
      assert Lists(entries, limit, k, x);
    }
  }
}
