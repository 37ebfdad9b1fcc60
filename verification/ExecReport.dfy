/**
 The report a command's script prints inside the container, and what is read
 back out of it: whatever the command printed, even lines made to look like the
 report itself.
 */
module ExecReport {
  import opened Base64
  import opened Text
  import opened Wrappers

  const MAX_OUTPUT_CHARS: nat := 262144
  const TIMEOUT_EXIT_CODE: nat := 124

  /** What a run has left on disk so far. */
  datatype Disk = Disk(
    found: bool,
    rc: Option<nat>,
    started: Option<nat>,
    ended: Option<nat>,
    out: seq<byte>,
    err: seq<byte>)

  datatype State = Running | TimedOut | Succeeded | Failed

  datatype Exec = Exec(
    state: State,
    exitCode: Option<nat>,
    stdout: seq<byte>,
    stderr: seq<byte>,
    stdoutTruncated: bool,
    stderrTruncated: bool,
    durationMs: Option<int>)

  datatype Error = NotFound | NotANumber

  function Head(b: seq<byte>): seq<byte> {
    if |b| <= MAX_OUTPUT_CHARS then b else b[..MAX_OUTPUT_CHARS]
  }

  // --- what the script prints ---------------------------------------------------

  function Shown(n: Option<nat>): string {
    match n case None => "" case Some(k) => Decimal(k)
  }

  /** The script reads its files one after another, while the command may still
      be writing them: a look at the disk for each line of the report. */
  type Looks = looks: seq<Disk> | |looks| == 8 witness seq(8, _ => NOTHING)

  const NOTHING := Disk(false, None, None, None, [], [])

  function Pairs(d: Looks): seq<(string, string)> {
    [("FOUND", if d[0].found then "1" else "0"),
     ("RC", Shown(d[1].rc)),
     ("STARTED", Shown(d[2].started)),
     ("ENDED", Shown(d[3].ended)),
     ("OUTLEN", Decimal(|d[4].out|)),
     ("ERRLEN", Decimal(|d[5].err|)),
     ("OUT", EncodePadded(Head(d[6].out))),
     ("ERR", EncodePadded(Head(d[7].err)))]
  }

  function Line(pair: (string, string)): string {
    pair.0 + [':'] + pair.1
  }

  function Printed(pairs: seq<(string, string)>): string {
    if pairs == [] then "" else Line(pairs[0]) + ['\n'] + Printed(pairs[1..])
  }

  function Report(d: Looks): string {
    Printed(Pairs(d))
  }

  // --- how it is read ---------------------------------------------------------------

  function FirstColon(s: string): (k: nat)
    ensures k <= |s| && (k < |s| ==> s[k] == ':')
    ensures forall i :: 0 <= i < k ==> s[i] != ':'
  {
    if s == "" || s[0] == ':' then 0 else 1 + FirstColon(s[1..])
  }

  /** The fields, each line parted at its first colon; a later line wins. */
  function Fields(lines: seq<string>): map<string, string> {
    if lines == [] then map[]
    else
      var before, last := Fields(lines[..|lines| - 1]), lines[|lines| - 1];
      var k := FirstColon(last);
      if k < |last| then before[last[..k] := last[k + 1..]] else before
  }

  method Parse(stdout: string) returns (report: map<string, string>)
    ensures report == Fields(Lines(stdout))
  {
    report := map[];
    var lines := Lines(stdout);
    var i := 0;
    while i < |lines|
      invariant 0 <= i <= |lines|
      invariant report == Fields(lines[..i])
    {
      assert lines[..i + 1][..i] == lines[..i];
      var k := FirstColon(lines[i]);
      if k < |lines[i]| {
        report := report[lines[i][..k] := lines[i][k + 1..]];
      }
      i := i + 1;
    }
    assert lines[..i] == lines;
  }

  function Get(report: map<string, string>, key: string): string {
    if key in report then report[key] else ""
  }

  function Number(s: string, default: nat): Option<nat> {
    if s == "" then Some(default) else Parsed(s)
  }

  function StateOf(exitCode: Option<nat>): State {
    match exitCode
    case None => Running
    case Some(code) => if code == TIMEOUT_EXIT_CODE then TimedOut else if code == 0 then Succeeded else Failed
  }

  function Output(encoded: string): seq<byte> {
    match Decode(encoded, false) case None => [] case Some(b) => b
  }

  function Duration(started: string, ended: string): Option<int> {
    match (Parsed(started), Parsed(ended))
    case (Some(s), Some(e)) => Some((e as int - s as int) * 1000)
    case _ => None
  }

  function Understood(rc: string, outLen: string, errLen: string, out: string, err: string, duration: Option<int>)
    : Result<Exec, Error>
  {
    match (Parsed(rc), Number(outLen, 0), Number(errLen, 0))
    case (code, Some(o), Some(e)) =>
      if rc != "" && code.None? then Failure(NotANumber)
      else Success(Exec(
        StateOf(code), code, Output(out), Output(err), o > MAX_OUTPUT_CHARS, e > MAX_OUTPUT_CHARS, duration))
    case _ => Failure(NotANumber)
  }

  function Interpret(report: map<string, string>): Result<Exec, Error> {
    if Get(report, "FOUND") == "0" then Failure(NotFound)
    else
      Understood(Get(report, "RC"), Get(report, "OUTLEN"), Get(report, "ERRLEN"), Get(report, "OUT"), Get(report, "ERR"),
                 Duration(Get(report, "STARTED"), Get(report, "ENDED")))
  }

  /** `_run_report`, on what the script printed. */
  function RunReport(stdout: string): Result<Exec, Error> {
    Interpret(Fields(Lines(stdout)))
  }

  // --- the way there and back ---------------------------------------------------------

  lemma FirstColonAfter(key: string, value: string)
    requires ':' !in key
    ensures FirstColon(key + [':'] + value) == |key|
  {
    var s := key + [':'] + value;
    assert forall i :: 0 <= i < |key| ==> s[i] == key[i];
    assert s[|key|] == ':';
  }

  /** A pair that stays on its line and shows where its key ends. */
  predicate Clean(pair: (string, string)) {
    ':' !in pair.0 && Unbroken(pair.0) && Unbroken(pair.1)
  }

  predicate AllClean(pairs: seq<(string, string)>) {
    forall i :: 0 <= i < |pairs| ==> Clean(pairs[i])
  }

  function Rendered(pairs: seq<(string, string)>): seq<string> {
    seq(|pairs|, i requires 0 <= i < |pairs| => Line(pairs[i]))
  }

  lemma {:induction false} LinesOfPrinted(pairs: seq<(string, string)>)
    requires AllClean(pairs)
    ensures Lines(Printed(pairs)) == Rendered(pairs)
  {
    if pairs != [] {
      var line, rest := Line(pairs[0]), Printed(pairs[1..]);
      assert Clean(pairs[0]) && Unbroken(line);
      LinesAfter(line, '\n', rest);
      LinesOfPrinted(pairs[1..]);
      assert Rendered(pairs) == [line] + Rendered(pairs[1..]);
    }
  }

  function AsMap(pairs: seq<(string, string)>): map<string, string> {
    if pairs == [] then map[]
    else AsMap(pairs[..|pairs| - 1])[pairs[|pairs| - 1].0 := pairs[|pairs| - 1].1]
  }

  lemma {:induction false} FieldsOfRendered(pairs: seq<(string, string)>)
    requires AllClean(pairs)
    ensures Fields(Rendered(pairs)) == AsMap(pairs)
  {
    if pairs != [] {
      var n := |pairs| - 1;
      assert Rendered(pairs)[..n] == Rendered(pairs[..n]);
      FieldsOfRendered(pairs[..n]);
      var (key, value) := pairs[n];
      assert Clean(pairs[n]);
      FirstColonAfter(key, value);
      var line := key + [':'] + value;
      assert line[..|key|] == key && line[|key| + 1..] == value;
    }
  }

  lemma {:induction false} LettersUnbroken(s: seq<sextet>)
    ensures Unbroken(Letters(s, false))
  {
  }

  lemma EncodedUnbroken(b: seq<byte>)
    ensures Unbroken(EncodePadded(b))
  {
    LettersUnbroken(Sextets(b));
  }

  lemma KeyClean(key: string, value: string)
    requires Unbroken(value) && forall i :: 0 <= i < |key| ==> 'A' <= key[i] <= 'Z'
    ensures Clean((key, value))
  {
  }

  lemma PairsClean(d: Looks)
    ensures AllClean(Pairs(d))
  {
    var pairs := Pairs(d);
    DigitsUnbroken(|d[4].out|);
    DigitsUnbroken(|d[5].err|);
    EncodedUnbroken(Head(d[6].out));
    EncodedUnbroken(Head(d[7].err));
    ShownUnbroken(d[1].rc);
    ShownUnbroken(d[2].started);
    ShownUnbroken(d[3].ended);
    forall i | 0 <= i < |pairs|
      ensures Clean(pairs[i])
    {
      KeyClean(pairs[i].0, pairs[i].1);
    }
  }

  lemma ShownUnbroken(n: Option<nat>)
    ensures Unbroken(Shown(n))
  {
    if n.Some? {
      DigitsUnbroken(n.value);
    }
  }

  lemma ParsedShown(n: Option<nat>)
    ensures Parsed(Shown(n)) == n && (Shown(n) == "" <==> n.None?)
  {
    if n.Some? {
      ParsedDecimal(n.value);
    }
  }

  /** Every field reads back as it was printed. */
  lemma ReportFields(d: Looks)
    ensures Fields(Lines(Report(d))) == AsMap(Pairs(d))
  {
    PairsClean(d);
    LinesOfPrinted(Pairs(d));
    FieldsOfRendered(Pairs(d));
  }

  predicate DistinctKeys(pairs: seq<(string, string)>) {
    forall i, j :: 0 <= i < j < |pairs| ==> pairs[i].0 != pairs[j].0
  }

  lemma {:induction false} AsMapGet(pairs: seq<(string, string)>, i: nat)
    requires DistinctKeys(pairs) && i < |pairs|
    ensures Get(AsMap(pairs), pairs[i].0) == pairs[i].1
    decreases |pairs|
  {
    if i < |pairs| - 1 {
      AsMapGet(pairs[..|pairs| - 1], i);
    }
  }

  lemma PairsDistinct(d: Looks)
    ensures DistinctKeys(Pairs(d))
  {
    var pairs := Pairs(d);
    assert |pairs[0].0| == 5 && |pairs[1].0| == 2 && |pairs[2].0| == 7;
    assert |pairs[3].0| == 5 && pairs[3].0[0] == 'E' && pairs[0].0[0] == 'F';
    assert |pairs[4].0| == 6 && pairs[4].0[0] == 'O' && |pairs[5].0| == 6 && pairs[5].0[0] == 'E';
    assert |pairs[6].0| == 3 && pairs[6].0[0] == 'O' && |pairs[7].0| == 3 && pairs[7].0[0] == 'E';
  }

  lemma OutputOfEncoded(b: seq<byte>)
    ensures Output(EncodePadded(b)) == b
  {
    PaddedRoundTrip(b);
  }

  function DurationOf(started: Option<nat>, ended: Option<nat>): Option<int> {
    if started.Some? && ended.Some? then Some((ended.value as int - started.value as int) * 1000) else None
  }

  /** What comes back of a run: each line as its own look found it. */
  function Expected(d: Looks): Exec {
    Exec(StateOf(d[1].rc), d[1].rc, Head(d[6].out), Head(d[7].err),
         |d[4].out| > MAX_OUTPUT_CHARS, |d[5].err| > MAX_OUTPUT_CHARS, DurationOf(d[2].started, d[3].ended))
  }

  lemma ReportRoundTrip(d: Looks)
    ensures RunReport(Report(d)) == if d[0].found then Success(Expected(d)) else Failure(NotFound)
  {
    ReportFields(d);
    PairsDistinct(d);
    var pairs, report := Pairs(d), AsMap(Pairs(d));
    forall i | 0 <= i < |pairs|
      ensures Get(report, pairs[i].0) == pairs[i].1
    {
      AsMapGet(pairs, i);
    }
    assert Get(report, "FOUND") == pairs[0].1 && Get(report, "RC") == pairs[1].1;
    assert Get(report, "STARTED") == pairs[2].1 && Get(report, "ENDED") == pairs[3].1;
    assert Get(report, "OUTLEN") == pairs[4].1 && Get(report, "ERRLEN") == pairs[5].1;
    assert Get(report, "OUT") == pairs[6].1 && Get(report, "ERR") == pairs[7].1;
    DurationReads(d[2].started, d[3].ended);
    UnderstoodAgain(d, Expected(d).durationMs);
  }

  lemma LengthReads(length: nat)
    ensures Number(Decimal(length), 0) == Some(length)
  {
    ParsedDecimal(length);
  }

  lemma DurationReads(started: Option<nat>, ended: Option<nat>)
    ensures Duration(Shown(started), Shown(ended)) ==
              DurationOf(started, ended)
  {
    ParsedShown(started);
    ParsedShown(ended);
  }

  lemma UnderstoodAgain(d: Looks, duration: Option<int>)
    ensures Understood(Shown(d[1].rc), Decimal(|d[4].out|), Decimal(|d[5].err|), EncodePadded(Head(d[6].out)),
                       EncodePadded(Head(d[7].err)), duration)
         == Success(Expected(d).(durationMs := duration))
  {
    ParsedShown(d[1].rc);
    LengthReads(|d[4].out|);
    LengthReads(|d[5].err|);
    OutputOfEncoded(Head(d[6].out));
    OutputOfEncoded(Head(d[7].err));
  }

  /** What the caller is told of a run that is there: no exit code is running, 0 is
      success, 124 is a timeout and any other a failure; at most 262144 bytes of each
      output, and whether more were counted; and the seconds between the two times,
      in milliseconds. */
  lemma ReportSays(d: Looks) returns (e: Exec)
    requires d[0].found
    ensures RunReport(Report(d)) == Success(e)
    ensures e.exitCode == d[1].rc
    ensures e.state == Running <==> d[1].rc == None
    ensures e.state == Succeeded <==> d[1].rc == Some(0)
    ensures e.state == TimedOut <==> d[1].rc == Some(124)
    ensures e.state == Failed <==> d[1].rc.Some? && d[1].rc.value != 0 && d[1].rc.value != 124
    ensures e.stdout <= d[6].out && |e.stdout| == if |d[6].out| < 262144 then |d[6].out| else 262144
    ensures e.stderr <= d[7].err && |e.stderr| == if |d[7].err| < 262144 then |d[7].err| else 262144
    ensures e.stdoutTruncated <==> |d[4].out| > 262144
    ensures e.stderrTruncated <==> |d[5].err| > 262144
    ensures e.durationMs.Some? <==> d[2].started.Some? && d[3].ended.Some?
    ensures e.durationMs.Some? ==> e.durationMs.value == 1000 * d[3].ended.value - 1000 * d[2].started.value
  {
    ReportRoundTrip(d);
    e := Expected(d);
  }

  lemma StateTells(report: string, e: Exec, rc: Option<nat>)
    requires RunReport(report) == Success(e) && e.state == StateOf(rc)
    ensures RunReport(report).Success? && (RunReport(report).value.state.Running? <==> rc.None?)
  {
  }

  /** The state says running if and only if no exit code had been written when
      its line was read. */
  lemma RunningUntilExitCode(d: Looks)
    requires d[0].found
    ensures RunReport(Report(d)).Success?
    ensures RunReport(Report(d)).value.state.Running? <==> d[1].rc.None?
  {
    ReportRoundTrip(d);
    StateTells(Report(d), Expected(d), d[1].rc);
  }

  // --- while the command is running ----------------------------------------------------

  predicate Kept(before: Option<nat>, after: Option<nat>) {
    before.Some? ==> after == before
  }

  /** A later look: outputs have grown, what was there is there, and once there
      is an exit code, which is written last, nothing changes. */
  predicate Later(before: Disk, after: Disk) {
    && (before.found ==> after.found)
    && Kept(before.started, after.started) && Kept(before.ended, after.ended)
    && before.out <= after.out && before.err <= after.err
    && (before.rc.Some? ==> after == before)
  }

  predicate InTurn(d: Looks) {
    forall i, j :: 0 <= i < j < 8 ==> Later(d[i], d[j])
  }

  /** All a look shows, with truncation flagged exactly when there was more. */
  function Snapshot(d: Disk): Exec {
    Exec(StateOf(d.rc), d.rc, Head(d.out), Head(d.err), |d.out| > |Head(d.out)|, |d.err| > |Head(d.err)|,
         DurationOf(d.started, d.ended))
  }

  /** A report with an exit code is exact: everything in it is how the command
      left things, and truncation is flagged exactly when there was more. */
  lemma FinishedIsExact(d: Looks)
    requires InTurn(d) && d[0].found && d[1].rc.Some?
    ensures RunReport(Report(d)) == Success(Snapshot(d[7]))
  {
    ReportRoundTrip(d);
    assert forall j :: 1 < j < 8 ==> Later(d[1], d[j]);
  }

  /** An output outgrew the limit between the look at its length and the look at
      its bytes. */
  predicate Outgrew(counted: seq<byte>, read: seq<byte>) {
    |counted| <= MAX_OUTPUT_CHARS < |read|
  }

  /** A flag is never raised for nothing; and it tells truly whether there was
      more, if and only if the output did not outgrow the limit in between. */
  lemma FlagsExact(d: Looks)
    requires InTurn(d)
    ensures Expected(d).stdoutTruncated ==> |d[6].out| > |Expected(d).stdout|
    ensures Expected(d).stderrTruncated ==> |d[7].err| > |Expected(d).stderr|
    ensures (Expected(d).stdoutTruncated <==> |d[6].out| > |Expected(d).stdout|) <==> !Outgrew(d[4].out, d[6].out)
    ensures (Expected(d).stderrTruncated <==> |d[7].err| > |Expected(d).stderr|) <==> !Outgrew(d[5].err, d[7].err)
  {
    assert Later(d[4], d[6]) && Later(d[5], d[7]);
  }

  /** So a running command's output can come back cut short and not say so. */
  lemma CutUnflagged() returns (d: Looks)
    ensures InTurn(d) && d[0].found && RunReport(Report(d)) == Success(Expected(d))
    ensures !Expected(d).stdoutTruncated && |Expected(d).stdout| < |d[6].out|
  {
    var full: seq<byte> := seq(MAX_OUTPUT_CHARS, _ => 0);
    var early, late := Disk(true, None, Some(0), None, full, []), Disk(true, None, Some(0), None, full + [0], []);
    d := [early, early, early, early, early, early, late, late];
    ReportRoundTrip(d);
  }
}
