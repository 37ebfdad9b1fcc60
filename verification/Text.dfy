/** String operations that several modules use, and what undoes them. */
module Text {
  import opened Wrappers

  /** `str.split(sep)` for a one-character separator: always at least one field. */
  function Split(s: string, sep: char): (fields: seq<string>)
    ensures fields != []
  {
    if s == "" then [""]
    else
      var rest := Split(s[1..], sep);
      if s[0] == sep then [""] + rest
      else [[s[0]] + rest[0]] + rest[1..]
  }

  /** `sep.join(fields)` */
  function Join(fields: seq<string>, sep: char): string {
    if fields == [] then ""
    else if |fields| == 1 then fields[0]
    else fields[0] + [sep] + Join(fields[1..], sep)
  }

  lemma {:induction false} JoinSplit(s: string, sep: char)
    ensures Join(Split(s, sep), sep) == s
  {
    if s != "" {
      var rest := Split(s[1..], sep);
      JoinSplit(s[1..], sep);
      if s[0] == sep {
        assert Split(s, sep)[1..] == rest;
      } else {
        var fields := Split(s, sep);
        assert fields[0] == [s[0]] + rest[0] && fields[1..] == rest[1..];
        if |rest| == 1 {
          assert Join(fields, sep) == [s[0]] + Join(rest, sep);
        } else {
          assert Join(fields, sep) == [s[0]] + (rest[0] + [sep] + Join(rest[1..], sep));
        }
      }
    }
  }

  lemma {:induction false} SplitWhole(s: string, sep: char)
    requires sep !in s
    ensures Split(s, sep) == [s]
  {
    if s != "" {
      assert s == [s[0]] + s[1..];
      SplitWhole(s[1..], sep);
    }
  }

  /** A field without the separator, then the separator, then the rest. */
  lemma {:induction false} SplitFirst(field: string, rest: string, sep: char)
    requires sep !in field
    ensures Split(field + [sep] + rest, sep) == [field] + Split(rest, sep)
    decreases |field|
  {
    var s := field + [sep] + rest;
    if field == "" {
      assert s[1..] == rest;
    } else {
      assert s[1..] == field[1..] + [sep] + rest;
      assert field == [field[0]] + field[1..];
      SplitFirst(field[1..], rest, sep);
      assert Split(s, sep) == [[s[0]] + field[1..]] + ([field[1..]] + Split(rest, sep))[1..];
    }
  }

  /** No field of a split holds the separator. */
  lemma {:induction false} FieldsClean(s: string, sep: char)
    ensures forall i :: 0 <= i < |Split(s, sep)| ==> sep !in Split(s, sep)[i]
  {
    if s != "" {
      FieldsClean(s[1..], sep);
      var rest := Split(s[1..], sep);
      forall i | 0 <= i < |Split(s, sep)|
        ensures sep !in Split(s, sep)[i]
      {
        if s[0] == sep {
          assert i > 0 ==> Split(s, sep)[i] == rest[i - 1];
        } else {
          assert i > 0 ==> Split(s, sep)[i] == rest[i];
          assert i == 0 ==> Split(s, sep)[i] == [s[0]] + rest[0];
        }
      }
    }
  }

  lemma {:induction false} SplitJoin(fields: seq<string>, sep: char)
    requires fields != []
    requires forall i :: 0 <= i < |fields| ==> sep !in fields[i]
    ensures Split(Join(fields, sep), sep) == fields
    decreases |fields|
  {
    if |fields| == 1 {
      SplitWhole(fields[0], sep);
    } else {
      SplitJoin(fields[1..], sep);
      SplitFirst(fields[0], Join(fields[1..], sep), sep);
      assert fields == [fields[0]] + fields[1..];
    }
  }

  // --- stripping ----------------------------------------------------------------

  /** What `str.strip()` takes off. */
  predicate IsSpace(c: char) {
    var n := c as int;
    (0x09 <= n <= 0x0D) || (0x1C <= n <= 0x20) || n == 0x85 || n == 0xA0 || n == 0x1680
    || (0x2000 <= n <= 0x200A) || n == 0x2028 || n == 0x2029 || n == 0x202F || n == 0x205F || n == 0x3000
  }

  /** The characters with the Unicode property White_Space, and the four separators
      of ASCII that `str.isspace` adds to them. */
  lemma SpacesAre(c: char)
    ensures IsSpace(c)
       <==> c as int in {9, 10, 11, 12, 13, 28, 29, 30, 31, 32, 133, 160, 5760, 8192, 8193, 8194, 8195, 8196, 8197, 8198,
                         8199, 8200, 8201, 8202, 8232, 8233, 8239, 8287, 12288}
  {
  }

  function StripLeft(s: string): string {
    if s != "" && IsSpace(s[0]) then StripLeft(s[1..]) else s
  }

  function StripRight(s: string): string {
    if s != "" && IsSpace(s[|s| - 1]) then StripRight(s[..|s| - 1]) else s
  }

  function Strip(s: string): string {
    StripRight(StripLeft(s))
  }

  lemma {:induction false} StripLeftShape(s: string)
    ensures var r := StripLeft(s);
            |r| <= |s| && r == s[|s| - |r|..] && (s != "" && IsSpace(s[0]) <==> |r| < |s|)
  {
    if s != "" && IsSpace(s[0]) {
      StripLeftShape(s[1..]);
    }
  }

  lemma {:induction false} StripRightShape(s: string)
    ensures var r := StripRight(s);
            && |r| <= |s| && r == s[..|r|] && (s != "" && IsSpace(s[|s| - 1]) <==> |r| < |s|)
            && (forall i :: |r| <= i < |s| ==> IsSpace(s[i])) && (r != "" ==> !IsSpace(r[|r| - 1]))
  {
    if s != "" && IsSpace(s[|s| - 1]) {
      StripRightShape(s[..|s| - 1]);
      assert forall i :: 0 <= i < |s| - 1 ==> s[i] == s[..|s| - 1][i];
    }
  }

  lemma StripUnbroken(s: string)
    requires Unbroken(s)
    ensures Unbroken(Strip(s))
  {
    StripLeftShape(s);
    StripRightShape(StripLeft(s));
  }

  // --- numbers --------------------------------------------------------------------

  predicate IsDigit(c: char) {
    '0' <= c <= '9'
  }

  function DigitValue(c: char): nat
    requires IsDigit(c)
  {
    c as int - '0' as int
  }

  function Decimal(n: nat): (r: string)
    ensures r != "" && forall c :: c in r ==> IsDigit(c)
  {
    var last := [('0' as int + n % 10) as char];
    if n < 10 then last else Decimal(n / 10) + last
  }

  function Parsed(s: string): Option<nat> {
    if s == "" || !IsDigit(s[|s| - 1]) then None
    else if |s| == 1 then Some(DigitValue(s[0]))
    else match Parsed(s[..|s| - 1])
      case None => None
      case Some(n) => Some(10 * n + DigitValue(s[|s| - 1]))
  }

  lemma {:induction false} ParsedDecimal(n: nat)
    ensures Parsed(Decimal(n)) == Some(n)
  {
    if n >= 10 {
      ParsedDecimal(n / 10);
      var s := Decimal(n);
      assert s[..|s| - 1] == Decimal(n / 10);
    }
  }

  lemma DecimalInjective(n: nat, m: nat)
    requires Decimal(n) == Decimal(m)
    ensures n == m
  {
    ParsedDecimal(n);
    ParsedDecimal(m);
  }

  // --- lines ------------------------------------------------------------------------

  /** What `str.splitlines()` breaks at. */
  predicate IsBreak(c: char) {
    var n := c as int;
    (0x0A <= n <= 0x0D) || (0x1C <= n <= 0x1E) || n == 0x85 || n == 0x2028 || n == 0x2029
  }

  /** Line feed, vertical tab, form feed, carriage return, the file, group and record
      separators, next line, and the two separators of Unicode. */
  lemma BreaksAre(c: char)
    ensures IsBreak(c) <==> c as int in {10, 11, 12, 13, 28, 29, 30, 133, 8232, 8233}
  {
  }

  function FirstBreak(s: string): (k: nat)
    ensures k <= |s| && (k < |s| ==> IsBreak(s[k]))
    ensures forall i :: 0 <= i < k ==> !IsBreak(s[i])
  {
    if s == "" || IsBreak(s[0]) then 0 else 1 + FirstBreak(s[1..])
  }

  function Lines(s: string): seq<string>
    decreases |s|
  {
    if s == "" then []
    else
      var k := FirstBreak(s);
      if k == |s| then [s]
      else if s[k] == '\r' && k + 1 < |s| && s[k + 1] == '\n' then [s[..k]] + Lines(s[k + 2..])
      else [s[..k]] + Lines(s[k + 1..])
  }

  predicate Unbroken(s: string) {
    forall i :: 0 <= i < |s| ==> !IsBreak(s[i])
  }

  /** The lines of a text that ends in one newline, and holds no carriage return. */
  function Pieces(s: string): (pieces: seq<string>)
    ensures pieces != [] && forall i :: 0 <= i < |pieces| ==> Unbroken(pieces[i])
    ensures |pieces| == 1 <==> Unbroken(s)
    ensures Unbroken(s) ==> pieces == [s]
    decreases |s|
  {
    var k := FirstBreak(s);
    if k == |s| then [s] else [s[..k]] + Pieces(s[k + 1..])
  }

  lemma FirstBreakAfter(line: string, end: char, rest: string)
    requires Unbroken(line) && IsBreak(end)
    ensures FirstBreak(line + [end] + rest) == |line|
  {
    var s := line + [end] + rest;
    assert forall i :: 0 <= i < |line| ==> s[i] == line[i];
    assert s[|line|] == end;
  }

  /** A line, its end, and what follows. */
  lemma LinesAfter(line: string, end: char, rest: string)
    requires Unbroken(line) && IsBreak(end) && end != '\r'
    ensures Lines(line + [end] + rest) == [line] + Lines(rest)
  {
    FirstBreakAfter(line, end, rest);
    var s := line + [end] + rest;
    assert s[..|line|] == line && s[|line| + 1..] == rest;
  }

  lemma SplitAt(before: string, s: string, k: nat, rest: string)
    requires k < |s|
    ensures before + s + rest == (before + s[..k]) + [s[k]] + ("" + s[k + 1..] + rest)
  {
    assert s == s[..k] + [s[k]] + s[k + 1..];
  }

  lemma PiecesRejoin(before: string, line: string, more: seq<string>, rest: seq<string>)
    requires more != []
    ensures [before + line] + (["" + more[0]] + more[1..] + rest)
         == [before + ([line] + more)[0]] + ([line] + more)[1..] + rest
  {
    assert "" + more[0] == more[0];
    assert ["" + more[0]] + more[1..] == more && ([line] + more)[1..] == more;
  }

  lemma Regrouped(a: string, b: string, c: string)
    ensures a + (b + c) == a + b + c
  {
  }

  lemma UnbrokenConcat(a: string, b: string)
    ensures Unbroken(a + b) <==> Unbroken(a) && Unbroken(b)
  {
    assert forall i :: 0 <= i < |a| ==> (a + b)[i] == a[i];
    assert forall i :: 0 <= i < |b| ==> (a + b)[|a| + i] == b[i];
  }

  lemma LinesOfOne(before: string, s: string, rest: string)
    requires Unbroken(before) && Unbroken(s)
    ensures Lines(before + s + (['\n'] + rest)) == [before + s] + Lines(rest)
  {
    Regrouped(before + s, ['\n'], rest);
    UnbrokenConcat(before, s);
    LinesAfter(before + s, '\n', rest);
  }

  lemma LinesOfFirst(before: string, s: string, k: nat, rest: string)
    requires Unbroken(before) && k < |s| && Unbroken(s[..k]) && IsBreak(s[k]) && s[k] != '\r'
    ensures Lines(before + s + rest) == [before + s[..k]] + Lines("" + s[k + 1..] + rest)
  {
    SplitAt(before, s, k, rest);
    UnbrokenConcat(before, s[..k]);
    LinesAfter(before + s[..k], s[k], "" + s[k + 1..] + rest);
  }

  /** A text after the beginning of a line, with what follows it. */
  lemma {:induction false} LinesOfPieces(before: string, s: string, rest: string)
    requires Unbroken(before) && '\r' !in s
    ensures Lines(before + s + (['\n'] + rest)) == [before + Pieces(s)[0]] + Pieces(s)[1..] + Lines(rest)
    decreases |s|
  {
    var k := FirstBreak(s);
    if k == |s| {
      LinesOfOne(before, s, rest);
      assert Pieces(s) == [s] && [before + s] + [s][1..] == [before + s];
    } else {
      var more := s[k + 1..];
      LinesOfFirst(before, s, k, ['\n'] + rest);
      LinesOfPieces("", more, rest);
      PiecesRejoin(before, s[..k], Pieces(more), Lines(rest));
    }
  }

  lemma DigitsUnbroken(n: nat)
    ensures Unbroken(Decimal(n))
  {
    forall i | 0 <= i < |Decimal(n)|
      ensures !IsBreak(Decimal(n)[i])
    {
      assert Decimal(n)[i] in Decimal(n);
    }
  }
}
