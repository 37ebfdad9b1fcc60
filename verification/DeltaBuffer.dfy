/**
 Batching streamed text into previews, and noticing when the stream has stopped
 meaning anything.
 */
module DeltaBuffer {
  import opened Utf8
  import opened Wrappers

  const DELTA_MAX_BYTES: nat := 2000
  const REPETITION_LIMIT: nat := 1024

  datatype Kind = Message | Thinking

  /** One publication: a kind and a stretch of text. */
  datatype Piece = Piece(kind: Kind, text: string)

  /** Buffered chunks of one kind, in the order they came. */
  datatype Run = Run(kind: Kind, chunks: seq<string>)

  // --- the repetition detector ------------------------------------------------

  datatype Detector = Detector(last: Option<char>, length: nat)

  const DEAF := Detector(None, 0)

  function Fed(d: Detector, c: char): Detector {
    if d.last == Some(c) then d.(length := d.length + 1) else Detector(Some(c), 1)
  }

  function Heard(text: string): Detector {
    if text == [] then DEAF else Fed(Heard(text[..|text| - 1]), text[|text| - 1])
  }

  /** Some `REPETITION_LIMIT` neighbouring characters are all the same. */
  ghost predicate Degenerate(text: string) {
    exists i :: RunAt(text, i, REPETITION_LIMIT)
  }

  ghost predicate RunAt(text: string, i: int, n: nat) {
    0 <= i <= i + n <= |text| && forall k :: i <= k < i + n ==> text[k] == text[i]
  }

  lemma RunWithoutItsEnd(text: string, i: int, n: nat)
    requires text != [] && i + n == |text| - 1
    ensures RunAt(text, i, n + 1) ==> RunAt(text[..|text| - 1], i, n)
  {
  }

  /** The detector's count is the longest run that ends the text. */
  lemma {:induction false} HeardCountsTheEnd(text: string)
    ensures var d := Heard(text);
            && (text == [] ==> d == DEAF)
            && (text != [] ==>
                && d.last == Some(text[|text| - 1]) && 1 <= d.length
                && RunAt(text, |text| - d.length, d.length)
                && !RunAt(text, |text| - d.length - 1, d.length + 1))
  {
    if text != [] {
      var n := |text| - 1;
      HeardCountsTheEnd(text[..n]);
      var d, e := Heard(text[..n]), Heard(text);
      if d.last == Some(text[n]) {
        assert RunAt(text[..n], n - d.length, d.length);
        assert text[n - 1] == text[n];
        assert RunAt(text, |text| - e.length, e.length);
        RunWithoutItsEnd(text, n - d.length - 1, d.length + 1);
      }
    }
  }

  /** One more character makes a text degenerate only by ending a run. */
  lemma DegenerateStep(text: string)
    requires text != []
    ensures Degenerate(text) <==> Degenerate(text[..|text| - 1]) || Heard(text).length >= 1024
  {
    var n := |text| - 1;
    HeardCountsTheEnd(text);
    var d := Heard(text);
    if Degenerate(text[..n]) {
      var i :| RunAt(text[..n], i, REPETITION_LIMIT);
      assert forall k :: i <= k < i + REPETITION_LIMIT ==> text[..n][k] == text[k];
      assert RunAt(text, i, REPETITION_LIMIT);
    }
    if d.length >= REPETITION_LIMIT {
      assert RunAt(text, |text| - REPETITION_LIMIT, REPETITION_LIMIT);
    }
    if Degenerate(text) {
      var i :| RunAt(text, i, REPETITION_LIMIT);
      if i + REPETITION_LIMIT <= n {
        assert RunAt(text[..n], i, REPETITION_LIMIT);
      } else if d.length < REPETITION_LIMIT {
        assert forall k :: i <= k < |text| ==> text[k] == text[i];
        assert RunAt(text, |text| - d.length - 1, d.length + 1);
      }
    }
  }

  lemma {:induction false} DegeneratePrefix(text: string, more: string)
    requires Degenerate(text)
    ensures Degenerate(text + more)
  {
    var i :| RunAt(text, i, REPETITION_LIMIT);
    assert forall k :: i <= k < i + REPETITION_LIMIT ==> (text + more)[k] == text[k];
    assert RunAt(text + more, i, REPETITION_LIMIT);
  }

  // --- sizes and tagged characters ----------------------------------------------

  function Bytes(text: string): nat {
    if text == [] then 0 else Bytes(text[..|text| - 1]) + Utf8Size(text[|text| - 1])
  }

  /** `len(text.encode())` */
  lemma {:induction false} BytesOfText(text: string)
    ensures Bytes(text) == |Encode(text)|
  {
    if text != [] {
      var n := |text| - 1;
      BytesOfText(text[..n]);
      EncodeConcat(text[..n], [text[n]]);
      assert text == text[..n] + [text[n]];
      assert [text[n]][1..] == [] && Encode([text[n]]) == EncodeChar(text[n]) + [];
    }
  }

  function Joined(chunks: seq<string>): string {
    if chunks == [] then [] else Joined(chunks[..|chunks| - 1]) + chunks[|chunks| - 1]
  }

  /** What is said, to its last character, each of its kind. */
  datatype Speech = Silence | Spoken(before: Speech, kind: Kind, character: char)

  function Then(a: Speech, b: Speech): Speech {
    match b
    case Silence => a
    case Spoken(before, kind, character) => Spoken(Then(a, before), kind, character)
  }

  /** All of `b`, but for some characters at its end. */
  predicate Begins(a: Speech, b: Speech) {
    a == b || (b.Spoken? && Begins(a, b.before))
  }

  function Tagged(kind: Kind, text: string): Speech {
    if text == [] then Silence else Spoken(Tagged(kind, text[..|text| - 1]), kind, text[|text| - 1])
  }

  /** The characters, whatever their kinds. */
  function Characters(s: Speech): string {
    match s
    case Silence => []
    case Spoken(before, _, character) => Characters(before) + [character]
  }

  lemma {:induction false} CharactersGrow(a: Speech, kind: Kind, text: string)
    ensures Characters(Then(a, Tagged(kind, text))) == Characters(a) + text
    decreases |text|
  {
    if text == [] {
      assert Characters(a) + text == Characters(a);
    } else {
      CharactersGrow(a, kind, text[..|text| - 1]);
      assert text == text[..|text| - 1] + [text[|text| - 1]];
    }
  }

  lemma {:induction false} GarbageStays(a: Speech, b: Speech)
    requires Degenerate(Characters(a))
    ensures Degenerate(Characters(Then(a, b)))
  {
    if b.Spoken? {
      GarbageStays(a, b.before);
      DegeneratePrefix(Characters(Then(a, b.before)), [b.character]);
    }
  }

  function Buffered(runs: seq<Run>): Speech {
    if runs == [] then Silence
    else Then(Buffered(runs[..|runs| - 1]), Tagged(runs[|runs| - 1].kind, Joined(runs[|runs| - 1].chunks)))
  }

  function Said(pieces: seq<Piece>): Speech {
    if pieces == [] then Silence
    else Then(Said(pieces[..|pieces| - 1]), Tagged(pieces[|pieces| - 1].kind, pieces[|pieces| - 1].text))
  }

  function BufferedBytes(runs: seq<Run>): nat {
    if runs == [] then 0
    else BufferedBytes(runs[..|runs| - 1]) + Bytes(Joined(runs[|runs| - 1].chunks))
  }

  /** Neighbouring runs differ in kind, so no two could have been one. */
  predicate Alternating(runs: seq<Run>) {
    |runs| < 2 || (runs[|runs| - 2].kind != runs[|runs| - 1].kind && Alternating(runs[..|runs| - 1]))
  }

  lemma {:induction false} BytesConcat(a: string, b: string)
    ensures Bytes(a + b) == Bytes(a) + Bytes(b)
    decreases |b|
  {
    if b == [] {
      assert a + b == a;
    } else {
      assert (a + b)[..|a + b| - 1] == a + b[..|b| - 1];
      BytesConcat(a, b[..|b| - 1]);
    }
  }

  /** Adding a chunk to the last run, or opening a run with it. */
  function Extended(runs: seq<Run>, kind: Kind, chunk: string): seq<Run> {
    var n := |runs|;
    if n > 0 && runs[n - 1].kind == kind
    then runs[n - 1 := Run(kind, runs[n - 1].chunks + [chunk])]
    else runs + [Run(kind, [chunk])]
  }

  lemma {:induction false} Regroup(a: Speech, b: Speech, c: Speech)
    ensures Then(a, Then(b, c)) == Then(Then(a, b), c)
  {
    if c.Spoken? {
      Regroup(a, b, c.before);
    }
  }

  lemma {:induction false} AfterSilence(a: Speech)
    ensures Then(Silence, a) == a
  {
    if a.Spoken? {
      AfterSilence(a.before);
    }
  }

  lemma {:induction false} TaggedConcat(kind: Kind, a: string, b: string)
    ensures Tagged(kind, a + b) == Then(Tagged(kind, a), Tagged(kind, b))
    decreases |b|
  {
    if b == [] {
      assert a + b == a;
    } else {
      assert (a + b)[..|a + b| - 1] == a + b[..|b| - 1];
      TaggedConcat(kind, a, b[..|b| - 1]);
    }
  }

  lemma JoinedOneMore(chunks: seq<string>, chunk: string)
    ensures Joined(chunks + [chunk]) == Joined(chunks) + chunk
  {
    assert (chunks + [chunk])[..|chunks|] == chunks;
  }

  lemma LastRunExtended(runs: seq<Run>, kind: Kind, chunk: string)
    requires runs != [] && runs[|runs| - 1].kind == kind
    ensures var longer := Extended(runs, kind, chunk);
            && Buffered(longer) == Then(Buffered(runs), Tagged(kind, chunk))
            && BufferedBytes(longer) == BufferedBytes(runs) + Bytes(chunk)
  {
    var n := |runs| - 1;
    var longer, chunks := Extended(runs, kind, chunk), runs[n].chunks;
    assert longer[..n] == runs[..n];
    JoinedOneMore(chunks, chunk);
    BytesConcat(Joined(chunks), chunk);
    TaggedConcat(kind, Joined(chunks), chunk);
    Regroup(Buffered(runs[..n]), Tagged(kind, Joined(chunks)), Tagged(kind, chunk));
  }

  lemma RunOpened(runs: seq<Run>, kind: Kind, chunk: string)
    requires runs == [] || runs[|runs| - 1].kind != kind
    ensures var longer := Extended(runs, kind, chunk);
            && Buffered(longer) == Then(Buffered(runs), Tagged(kind, chunk))
            && BufferedBytes(longer) == BufferedBytes(runs) + Bytes(chunk)
  {
    var longer := Extended(runs, kind, chunk);
    assert longer[..|runs|] == runs;
    JoinedOneMore([], chunk);
    assert [] + [chunk] == [chunk] && Joined([]) + chunk == chunk;
  }

  lemma ExtendedAlternates(runs: seq<Run>, kind: Kind, chunk: string)
    requires Alternating(runs)
    ensures Alternating(Extended(runs, kind, chunk))
  {
    var longer, n := Extended(runs, kind, chunk), |runs|;
    if n > 0 && runs[n - 1].kind == kind {
      assert longer[..n - 1] == runs[..n - 1];
    } else {
      assert longer[..n] == runs;
    }
  }

  lemma ExtendedKeeps(runs: seq<Run>, kind: Kind, chunk: string)
    requires Alternating(runs)
    ensures Alternating(Extended(runs, kind, chunk))
    ensures Buffered(Extended(runs, kind, chunk)) == Then(Buffered(runs), Tagged(kind, chunk))
    ensures BufferedBytes(Extended(runs, kind, chunk)) == BufferedBytes(runs) + Bytes(chunk)
  {
    ExtendedAlternates(runs, kind, chunk);
    if runs != [] && runs[|runs| - 1].kind == kind {
      LastRunExtended(runs, kind, chunk);
    } else {
      RunOpened(runs, kind, chunk);
    }
  }

  lemma SaidOneMore(pieces: seq<Piece>, piece: Piece)
    ensures Said(pieces + [piece]) == Then(Said(pieces), Tagged(piece.kind, piece.text))
  {
    assert (pieces + [piece])[..|pieces|] == pieces;
  }

  lemma {:induction false} BufferedFirst(runs: seq<Run>)
    requires runs != []
    ensures Buffered(runs) == Then(Tagged(runs[0].kind, Joined(runs[0].chunks)), Buffered(runs[1..]))
    decreases |runs|
  {
    var n := |runs| - 1;
    var first, last := Tagged(runs[0].kind, Joined(runs[0].chunks)), Tagged(runs[n].kind, Joined(runs[n].chunks));
    if n == 0 {
      AfterSilence(first);
      assert runs[..0] == [] && runs[1..] == [];
    } else {
      BufferedFirst(runs[..n]);
      assert runs[..n][1..] == runs[1..n] && runs[1..][..n - 1] == runs[1..n];
      Regroup(first, Buffered(runs[1..n]), last);
    }
  }

  /** One publication per run. */
  function PiecesOf(runs: seq<Run>): seq<Piece> {
    seq(|runs|, i requires 0 <= i < |runs| => Piece(runs[i].kind, Joined(runs[i].chunks)))
  }

  lemma OnePieceMore(before: seq<Piece>, runs: seq<Run>, i: nat)
    requires i < |runs|
    ensures before + PiecesOf(runs[..i + 1]) == before + PiecesOf(runs[..i]) + [Piece(runs[i].kind, Joined(runs[i].chunks))]
  {
  }

  lemma BufferedFrom(runs: seq<Run>, i: nat)
    requires i < |runs|
    ensures Buffered(runs[i..]) == Then(Tagged(runs[i].kind, Joined(runs[i].chunks)), Buffered(runs[i + 1..]))
  {
    BufferedFirst(runs[i..]);
    assert runs[i..][0] == runs[i] && runs[i..][1..] == runs[i + 1..];
  }

  lemma OneRunOut(said: seq<Piece>, runs: seq<Run>, i: nat)
    requires i < |runs|
    ensures Then(Said(said + [Piece(runs[i].kind, Joined(runs[i].chunks))]), Buffered(runs[i + 1..]))
         == Then(Said(said), Buffered(runs[i..]))
  {
    var piece := Piece(runs[i].kind, Joined(runs[i].chunks));
    SaidOneMore(said, piece);
    BufferedFrom(runs, i);
    Regroup(Said(said), Tagged(piece.kind, piece.text), Buffered(runs[i + 1..]));
  }

  /** With some of the runs out, the others are what is missing. */
  lemma {:induction false} RunsOut(before: seq<Piece>, runs: seq<Run>, n: nat)
    requires n <= |runs|
    ensures Then(Said(before + PiecesOf(runs[..n])), Buffered(runs[n..])) == Then(Said(before), Buffered(runs))
    decreases n
  {
    if n == 0 {
      assert before + PiecesOf(runs[..0]) == before && runs[0..] == runs;
    } else {
      RunsOut(before, runs, n - 1);
      OnePieceMore(before, runs, n - 1);
      OneRunOut(before + PiecesOf(runs[..n - 1]), runs, n - 1);
    }
  }

  /** How many more publications `publish` takes before it raises; with none given, it never does. */
  type Room = Option<nat>

  predicate Takes(room: Room, n: nat) {
    room.Some? ==> n <= room.value
  }

  function Less(room: Room, n: nat): Room
    requires Takes(room, n)
  {
    match room case None => None case Some(r) => Some(r - n)
  }

  /** How many of `n` publications it takes. */
  function Sent(room: Room, n: nat): (k: nat)
    ensures k <= n && Takes(room, k) && (k == n <==> Takes(room, n))
  {
    if Takes(room, n) then n else room.value
  }

  /** The last `n` of some runs. */
  predicate IsEnd(some: seq<Run>, runs: seq<Run>, n: int) {
    |some| == n <= |runs| && forall i :: 0 <= i < n ==> some[i] == runs[|runs| - n + i]
  }

  predicate Spends(room: Room, left: Room, n: nat) {
    Takes(room, n) && left == Less(room, n)
  }

  // --- the buffer -----------------------------------------------------------------

  /** A chunk, with whether the window is up once it is in; or a committed message. */
  datatype Act = Chunk(kind: Kind, text: string, due: bool) | FlushNow

  function ActSpeech(act: Act): Speech {
    match act case Chunk(kind, text, _) => Tagged(kind, text) case FlushNow => Silence
  }

  /** How a reply can end: stopped as garbage, by a `publish` that raised, or not at all. */
  datatype Outcome = Garbage | Raised | Whole

  class Buffer {
    var runs: seq<Run>
    var size: nat
    var repeating: Detector
    var published: seq<Piece>            // what `publish` has taken
    var room: Room                       // and how much more it will

    ghost var added: Speech              // everything ever added

    /** Published and buffered text are all that was added, in order; and the
        whole of it is still worth reading. */
    ghost predicate Valid()
      reads this
    {
      && added == Then(Said(published), Buffered(runs))
      && Alternating(runs)
      && size == BufferedBytes(runs)
      && repeating == Heard(Characters(added))
      && !Degenerate(Characters(added))
    }

    constructor (room: Room)
      ensures Valid() && added == Silence && published == [] && runs == [] && this.room == room
    {
      runs, size, repeating, published, this.room := [], 0, DEAF, [], room;
      added := Silence;
    }

    method CheckRepetition(text: string, ghost heard: string) returns (garbage: bool)
      requires repeating == Heard(heard) && !Degenerate(heard)
      modifies this`repeating
      ensures garbage <==> Degenerate(heard + text)
      ensures !garbage ==> repeating == Heard(heard + text)
    {
      var i := 0;
      assert heard + text[..0] == heard;
      while i < |text|
        invariant 0 <= i <= |text|
        invariant repeating == Heard(heard + text[..i]) && !Degenerate(heard + text[..i])
      {
        ghost var next := heard + text[..i + 1];
        assert next[..|next| - 1] == heard + text[..i];
        DegenerateStep(next);
        if repeating.last == Some(text[i]) {
          repeating := repeating.(length := repeating.length + 1);
        } else {
          repeating := Detector(Some(text[i]), 1);
        }
        if repeating.length >= REPETITION_LIMIT {
          assert heard + text == next + text[i + 1..];
          DegeneratePrefix(next, text[i + 1..]);
          return true;
        }
        i := i + 1;
      }
      assert text[..i] == text;
      garbage := false;
    }

    /** Raises exactly when the text ever added, whatever its kinds, its chunks
        and the flushes in between, now holds a run of the limit. */
    method Add(kind: Kind, text: string) returns (garbage: bool)
      requires Valid()
      modifies this
      ensures garbage <==> Degenerate(Characters(Then(old(added), Tagged(kind, text))))
      ensures !garbage ==> Valid() && added == Then(old(added), Tagged(kind, text)) && size == old(size) + Bytes(text)
      ensures published == old(published) && room == old(room)
    {
      if text == [] {
        return false;
      }
      CharactersGrow(added, kind, text);
      garbage := CheckRepetition(text, Characters(added));
      if garbage {
        return;
      }
      Append(kind, text);
    }

    /** Extends the last run if it is of this kind, and opens one if it is not. */
    method Append(kind: Kind, text: string)
      requires added == Then(Said(published), Buffered(runs)) && Alternating(runs) && size == BufferedBytes(runs)
      modifies this`runs, this`size, this`added
      ensures added == Then(Said(published), Buffered(runs)) && Alternating(runs) && size == BufferedBytes(runs)
      ensures added == Then(old(added), Tagged(kind, text)) && size == old(size) + Bytes(text)
    {
      ExtendedKeeps(runs, kind, text);
      Regroup(Said(published), Buffered(runs), Tagged(kind, text));
      if |runs| > 0 && runs[|runs| - 1].kind == kind {
        runs := runs[|runs| - 1 := Run(kind, runs[|runs| - 1].chunks + [text])];
      } else {
        runs := runs + [Run(kind, [text])];
      }
      size := size + Bytes(text);
      added := Then(added, Tagged(kind, text));
    }

    method Publish(kind: Kind, text: string) returns (raised: bool)
      modifies this`published, this`room
      ensures raised <==> !Takes(old(room), 1)
      ensures raised ==> published == old(published) && room == old(room)
      ensures !raised ==> published == old(published) + [Piece(kind, text)] && room == Less(old(room), 1)
    {
      raised := room == Some(0);
      if !raised {
        room := Less(room, 1);
        published := published + [Piece(kind, text)];
      }
    }

    method PublishAll(taken: seq<Run>) returns (raised: bool)
      modifies this`published, this`room
      ensures raised <==> !Takes(old(room), |taken|)
      ensures published == old(published) + PiecesOf(taken[..Sent(old(room), |taken|)])
      ensures room == Less(old(room), Sent(old(room), |taken|))
    {
      var i := 0;
      ghost var before, limit := published, room;
      assert before + PiecesOf(taken[..0]) == before;
      while i < |taken|
        invariant 0 <= i <= |taken|
        invariant published == before + PiecesOf(taken[..i])
        invariant Spends(limit, room, i)
      {
        raised := Publish(taken[i].kind, Joined(taken[i].chunks));
        if raised {
          return;
        }
        OnePieceMore(before, taken, i);
        i := i + 1;
      }
      raised := false;
    }

    /** Publishes what has accumulated, oldest run first. If `publish` raises, the
        runs before have gone out, and that one and those after it are lost: they
        are no longer buffered. */
    method Flush() returns (raised: bool, ghost lost: seq<Run>)
      requires Valid()
      modifies this`runs, this`size, this`published, this`room
      ensures runs == [] && size == 0
      ensures raised <==> !Takes(old(room), |old(runs)|)
      ensures published == old(published) + PiecesOf(old(runs)[..Sent(old(room), |old(runs)|)])
      ensures room == Less(old(room), Sent(old(room), |old(runs)|))
      ensures IsEnd(lost, old(runs), |old(runs)| - Sent(old(room), |old(runs)|))
      ensures added == Then(Said(published), Buffered(lost))
      ensures !raised ==> Valid() && lost == []
    {
      ghost var n := Sent(room, |runs|);
      RunsOut(published, runs, n);
      lost := runs[n..];
      var taken := runs;
      runs, size := [], 0;
      raised := PublishAll(taken);
    }

    /** The window is up, or the buffer is full. */
    method FlushIfDue(due: bool) returns (raised: bool, ghost lost: seq<Run>)
      requires Valid()
      modifies this`runs, this`size, this`published, this`room
      ensures size < 2000 && added == Then(Said(published), Buffered(lost))
      ensures raised <==> (old(size) >= DELTA_MAX_BYTES || due) && !Takes(old(room), |old(runs)|)
      ensures |old(published)| <= |published| && Spends(old(room), room, |published| - |old(published)|)
      ensures if raised then room == Some(0) else Valid() && lost == runs
      ensures old(size) >= DELTA_MAX_BYTES || due ==>
                runs == [] && IsEnd(lost, old(runs), |old(runs)| - Sent(old(room), |old(runs)|))
      ensures old(size) < DELTA_MAX_BYTES && !due ==> runs == old(runs) && published == old(published)
    {
      raised, lost := false, runs;
      if size >= DELTA_MAX_BYTES || due {
        raised, lost := Flush();
      }
    }

    /** One frame of the stream. Nothing waits behind a committed message or once the
        window is up, and never 2000 bytes; and nothing goes out before. */
    method Handle(act: Act) returns (outcome: Outcome, ghost lost: seq<Run>)
      requires Valid()
      modifies this
      ensures |old(published)| <= |published| && Spends(old(room), room, |published| - |old(published)|)
      ensures outcome.Garbage? <==> Degenerate(Characters(Then(old(added), ActSpeech(act))))
      ensures outcome.Garbage? ==> old(added) == Then(Said(published), Buffered(lost))
      ensures outcome.Raised? ==> room == Some(0) && Then(old(added), ActSpeech(act)) == Then(Said(published), Buffered(lost))
      ensures outcome.Whole? ==> Valid() && added == Then(old(added), ActSpeech(act)) && size < 2000
      ensures act.FlushNow? || act.due ==> outcome.Garbage? || runs == []
      ensures act.Chunk? && !act.due && old(size) + Bytes(act.text) < 2000 ==> published == old(published)
      ensures outcome.Garbage? ==> published == old(published)
    {
      var raised := false;
      match act {
        case Chunk(kind, text, due) =>
          lost := runs;
          var garbage := Add(kind, text);
          if garbage {
            return Garbage, lost;
          }
          raised, lost := FlushIfDue(due);
        case FlushNow =>
          raised, lost := Flush();
      }
      outcome := if raised then Raised else Whole;
    }
  }

  // --- what a model reply looks like from outside --------------------------------

  function SpeechOf(acts: seq<Act>): Speech {
    if acts == [] then Silence else Then(SpeechOf(acts[..|acts| - 1]), ActSpeech(acts[|acts| - 1]))
  }

  /** A whole reply through a fresh buffer. It is stopped if and only if its text
      holds a run of the limit, however it was cut and flushed, or `publish` raises
      first; otherwise every character is published, once, in order, under its own
      kind. However it ends, what is published is how the reply began. */
  method Reply(acts: seq<Act>, room: Room) returns (outcome: Outcome, published: seq<Piece>)
    ensures outcome.Garbage? ==> Degenerate(Characters(SpeechOf(acts)))
    ensures outcome.Raised? ==> room.Some? && |published| == room.value
    ensures outcome.Whole? ==> !Degenerate(Characters(SpeechOf(acts))) && Said(published) == SpeechOf(acts)
    ensures Takes(room, |published|)
    ensures Begins(Said(published), SpeechOf(acts))
  {
    var buffer := new Buffer(room);
    var i := 0;
    ghost var lost: seq<Run> := [];
    assert acts[..0] == [];
    while i < |acts|
      invariant 0 <= i <= |acts|
      invariant fresh(buffer) && buffer.Valid()
      invariant buffer.added == SpeechOf(acts[..i])
      invariant Spends(room, buffer.room, |buffer.published|)
    {
      OneActMore(acts, i);
      outcome, lost := buffer.Handle(acts[i]);
      if !outcome.Whole? {
        PublishedBegins(acts, if outcome.Garbage? then i else i + 1, buffer.published, lost);
        EndsHere(acts, i + 1);
        return outcome, buffer.published;
      }
      i := i + 1;
    }
    assert acts[..i] == acts;
    outcome, published, lost := Close(buffer, room);
    PublishedBegins(acts, i, published, lost);
  }

  /** What is left goes out. */
  method Close(buffer: Buffer, ghost room: Room) returns (outcome: Outcome, published: seq<Piece>, ghost lost: seq<Run>)
    requires buffer.Valid() && Spends(room, buffer.room, |buffer.published|)
    modifies buffer
    ensures !outcome.Garbage? && Takes(room, |published|)
    ensures old(buffer.added) == Then(Said(published), Buffered(lost))
    ensures outcome.Raised? ==> room.Some? && |published| == room.value
    ensures outcome.Whole? ==> Said(published) == old(buffer.added)
  {
    var raised;
    raised, lost := buffer.Flush();
    outcome, published := if raised then Raised else Whole, buffer.published;
  }

  lemma OneActMore(acts: seq<Act>, i: nat)
    requires i < |acts|
    ensures SpeechOf(acts[..i + 1]) == Then(SpeechOf(acts[..i]), ActSpeech(acts[i]))
  {
    assert acts[..i + 1][..i] == acts[..i];
  }

  lemma {:induction false} EndsHere(acts: seq<Act>, k: nat)
    requires k <= |acts|
    ensures Degenerate(Characters(SpeechOf(acts[..k]))) ==> Degenerate(Characters(SpeechOf(acts)))
    decreases |acts| - k
  {
    if k == |acts| {
      assert acts[..k] == acts;
    } else {
      OneActMore(acts, k);
      if Degenerate(Characters(SpeechOf(acts[..k]))) {
        GarbageStays(SpeechOf(acts[..k]), ActSpeech(acts[k]));
      }
      EndsHere(acts, k + 1);
    }
  }

  lemma PublishedBegins(acts: seq<Act>, k: nat, published: seq<Piece>, lost: seq<Run>)
    requires k <= |acts| && SpeechOf(acts[..k]) == Then(Said(published), Buffered(lost))
    ensures Begins(Said(published), SpeechOf(acts))
  {
    BeginsMore(Said(published), Said(published), Buffered(lost));
    SpeechGrows(acts, k, Said(published));
  }

  lemma {:induction false} BeginsMore(a: Speech, b: Speech, more: Speech)
    requires Begins(a, b)
    ensures Begins(a, Then(b, more))
  {
    if more.Spoken? {
      BeginsMore(a, b, more.before);
    }
  }

  lemma {:induction false} SpeechGrows(acts: seq<Act>, k: nat, said: Speech)
    requires k <= |acts| && Begins(said, SpeechOf(acts[..k]))
    ensures Begins(said, SpeechOf(acts))
    decreases |acts| - k
  {
    if k == |acts| {
      assert acts[..k] == acts;
    } else {
      OneActMore(acts, k);
      BeginsMore(said, SpeechOf(acts[..k]), ActSpeech(acts[k]));
      SpeechGrows(acts, k + 1, said);
    }
  }
}
