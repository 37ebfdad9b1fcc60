/**
 Storing bytes that arrive a piece at a time: chunks of any size in, parts of
 one size out, and never an upload left half open.
 */
module Multipart {
  import opened Wrappers

  const PART_BYTES: nat := 8 * 1024 * 1024

  datatype Part = Part(number: nat, body: seq<byte>)

  datatype Phase = Open | Completed | Aborted

  datatype Error = ObjectTooLarge | ProviderFailed | SourceFailed

  datatype Stored = Stored(size: nat, hashed: seq<byte>)

  function Joined(chunks: seq<seq<byte>>): seq<byte> {
    if chunks == [] then [] else Joined(chunks[..|chunks| - 1]) + chunks[|chunks| - 1]
  }

  /** The parts that bytes are stored as, however they arrived. */
  function Cut(data: seq<byte>): seq<seq<byte>>
    decreases |data|
  {
    if |data| <= PART_BYTES then [data] else [data[..PART_BYTES]] + Cut(data[PART_BYTES..])
  }

  function Bodies(parts: seq<Part>): seq<seq<byte>> {
    seq(|parts|, i requires 0 <= i < |parts| => parts[i].body)
  }

  ghost predicate NumberedUp(parts: seq<Part>) {
    forall i :: 0 <= i < |parts| ==> parts[i].number == i + 1
  }

  ghost predicate AllFull(bodies: seq<seq<byte>>) {
    forall i :: 0 <= i < |bodies| ==> |bodies[i]| == PART_BYTES
  }

  /** How many parts: one for nothing, otherwise the length over the part size,
      rounded up. */
  function PartCount(length: nat): nat {
    if length == 0 then 1 else (length + PART_BYTES - 1) / PART_BYTES
  }

  lemma {:induction false} JoinedConcat(a: seq<seq<byte>>, b: seq<seq<byte>>)
    ensures Joined(a + b) == Joined(a) + Joined(b)
    decreases |b|
  {
    if b == [] {
      assert a + b == a;
    } else {
      var n := |b| - 1;
      assert (a + b)[..|a + b| - 1] == a + b[..n];
      JoinedConcat(a, b[..n]);
      assert Joined(a) + (Joined(b[..n]) + b[n]) == (Joined(a) + Joined(b[..n])) + b[n];
    }
  }

  lemma JoinedOne(a: seq<byte>)
    ensures Joined([a]) == a
  {
    assert [a][..0] == [];
  }

  lemma PartCountStep(length: nat)
    requires length > PART_BYTES
    ensures PartCount(length) == PartCount(length - PART_BYTES) + 1
  {
  }

  function Last(bodies: seq<seq<byte>>): seq<byte>
    requires bodies != []
  {
    bodies[|bodies| - 1]
  }

  lemma LastOfMore(head: seq<byte>, rest: seq<seq<byte>>)
    requires rest != []
    ensures Last([head] + rest) == Last(rest)
    ensures ([head] + rest)[..|[head] + rest| - 1] == [head] + rest[..|rest| - 1]
    ensures AllFull(rest[..|rest| - 1]) && |head| == PART_BYTES ==> AllFull(([head] + rest)[..|[head] + rest| - 1])
  {
  }

  lemma {:induction false} CutJoins(data: seq<byte>)
    ensures Joined(Cut(data)) == data
    decreases |data|
  {
    if |data| <= PART_BYTES {
      JoinedOne(data);
    } else {
      var head, rest := data[..PART_BYTES], data[PART_BYTES..];
      CutJoins(rest);
      JoinedConcat([head], Cut(rest));
      JoinedOne(head);
      assert data == head + rest;
    }
  }

  lemma {:induction false} CutCount(data: seq<byte>)
    ensures |Cut(data)| == PartCount(|data|) > 0
    decreases |data|
  {
    if |data| > PART_BYTES {
      CutCount(data[PART_BYTES..]);
      PartCountStep(|data|);
    }
  }

  lemma {:induction false} CutShape(data: seq<byte>)
    ensures Cut(data) != [] && AllFull(Cut(data)[..|Cut(data)| - 1])
    ensures |Last(Cut(data))| <= PART_BYTES && (Last(Cut(data)) == [] ==> data == [])
    decreases |data|
  {
    if |data| > PART_BYTES {
      var rest := data[PART_BYTES..];
      CutShape(rest);
      LastOfMore(data[..PART_BYTES], Cut(rest));
    }
  }

  /** The parts are the bytes, cut into full ones and one last that is not more
      than full, and empty only if there was nothing. */
  lemma CutIsExact(data: seq<byte>)
    ensures Joined(Cut(data)) == data
    ensures |Cut(data)| == PartCount(|data|) > 0
    ensures forall i :: 0 <= i < |Cut(data)| - 1 ==> |Cut(data)[i]| == 8388608
    ensures |Last(Cut(data))| <= 8388608 && (Last(Cut(data)) == [] ==> data == [])
  {
    CutJoins(data);
    CutCount(data);
    CutShape(data);
  }

  /** Full parts and a last one are the cut of what they hold. */
  lemma {:induction false} FullThenLast(full: seq<seq<byte>>, last: seq<byte>)
    requires AllFull(full) && |last| <= PART_BYTES && (full != [] ==> last != [])
    ensures Cut(Joined(full + [last])) == full + [last]
    decreases |full|
  {
    if full == [] {
      assert full + [last] == [last];
      JoinedOne(last);
    } else {
      var head, rest := full[0], full[1..];
      assert full + [last] == [head] + (rest + [last]);
      JoinedConcat([head], rest + [last]);
      JoinedOne(head);
      JoinedConcat(rest, [last]);
      JoinedOne(last);
      FullThenLast(rest, last);
      var data := Joined(full + [last]);
      assert data == head + Joined(rest + [last]);
      assert data[..PART_BYTES] == head && data[PART_BYTES..] == Joined(rest + [last]);
    }
  }

  /** The provider's side of one upload. Parts whose numbers it refuses, and a
      completion it refuses, are its own affair. */
  class Upload {
    const refuses: set<nat>
    const completes: bool
    var parts: seq<Part>
    var phase: Phase

    constructor (refuses: set<nat>, completes: bool)
      ensures parts == [] && phase == Open
      ensures this.refuses == refuses && this.completes == completes
    {
      this.refuses, this.completes := refuses, completes;
      parts, phase := [], Open;
    }

    method Send(body: seq<byte>) returns (ok: bool)
      requires NumberedUp(parts)
      modifies this`parts
      ensures ok <==> |old(parts)| + 1 !in refuses
      ensures NumberedUp(parts)
      ensures Bodies(parts) == if ok then Bodies(old(parts)) + [body] else Bodies(old(parts))
    {
      var number := |parts| + 1;
      ok := number !in refuses;
      if ok {
        parts := parts + [Part(number, body)];
      }
    }
  }

  /** Sends full parts while the buffer holds one. */
  method Trim(upload: Upload, buffer: seq<byte>) returns (left: seq<byte>, ok: bool)
    requires NumberedUp(upload.parts) && AllFull(Bodies(upload.parts))
    modifies upload`parts
    ensures NumberedUp(upload.parts) && AllFull(Bodies(upload.parts))
    ensures |upload.parts| >= |old(upload.parts)|
    ensures Joined(Bodies(upload.parts)) + left == Joined(Bodies(old(upload.parts))) + buffer
    ensures ok ==> |left| < PART_BYTES
    ensures ok ==> forall k :: |old(upload.parts)| < k <= |upload.parts| ==> k !in upload.refuses
    ensures !ok ==> |upload.parts| + 1 in upload.refuses && |left| >= PART_BYTES
  {
    left, ok := buffer, true;
    while |left| >= PART_BYTES
      invariant NumberedUp(upload.parts) && AllFull(Bodies(upload.parts))
      invariant |upload.parts| >= |old(upload.parts)|
      invariant Joined(Bodies(upload.parts)) + left == Joined(Bodies(old(upload.parts))) + buffer
      invariant forall k :: |old(upload.parts)| < k <= |upload.parts| ==> k !in upload.refuses
      decreases |left|
    {
      ghost var bodies := Bodies(upload.parts);
      var body := left[..PART_BYTES];
      ok := upload.Send(body);
      if !ok {
        return;
      }
      JoinedConcat(bodies, [body]);
      JoinedOne(body);
      assert (Joined(bodies) + body) + left[PART_BYTES..] == Joined(bodies) + left;
      left := left[PART_BYTES..];
    }
  }

  /** What is left goes last, and an empty upload is one empty part. */
  method SendLast(upload: Upload, left: seq<byte>, ghost data: seq<byte>) returns (ok: bool)
    requires NumberedUp(upload.parts) && AllFull(Bodies(upload.parts)) && |left| < PART_BYTES
    requires Joined(Bodies(upload.parts)) + left == data
    requires forall k :: 0 < k <= |upload.parts| ==> k !in upload.refuses
    modifies upload`parts
    ensures NumberedUp(upload.parts)
    ensures ok ==> Bodies(upload.parts) == Cut(data)
    ensures ok <==> forall k :: 1 <= k <= PartCount(|data|) ==> k !in upload.refuses
  {
    ghost var sent := Bodies(upload.parts);
    CutIsExact(data);
    ok := true;
    if left != [] || upload.parts == [] {
      TailSent(sent, left, data);
      ok := upload.Send(left);
    } else {
      FullOnly(sent, data);
    }
  }

  /** The whole upload. What is stored does not depend on how the bytes arrived:
      they are cut the same way, numbered from one, and hashed as they are. It is
      completed if and only if the source ends, within the limit, and the provider
      takes every part and the completion; otherwise it is aborted. */
  method SaveStream(chunks: seq<seq<byte>>, raises: bool, maxBytes: Option<nat>, refuses: set<nat>, completes: bool)
    returns (result: Result<Stored, Error>, upload: Upload)
    ensures fresh(upload) && NumberedUp(upload.parts)
    ensures result.Success?
       <==> && !raises && completes && (maxBytes.None? || |Joined(chunks)| <= maxBytes.value)
            && forall k :: 1 <= k <= PartCount(|Joined(chunks)|) ==> k !in refuses
    ensures upload.phase == if result.Success? then Completed else Aborted
    ensures result.Success? ==> Bodies(upload.parts) == Cut(Joined(chunks))
    ensures result.Success? ==> result.value == Stored(|Joined(chunks)|, Joined(chunks))
    ensures result.Failure? ==>
              (result.error.ObjectTooLarge? <==> exists i: nat :: PassesLimit(chunks, maxBytes, i) && Taken(|Joined(chunks[..i])|, refuses))
    ensures result.Failure? ==>
              (result.error.SourceFailed?
               <==> raises && !TooLarge(|Joined(chunks)|, maxBytes) && Taken(|Joined(chunks)|, refuses))
  {
    upload := new Upload(refuses, completes);
    var hashed, received;
    ghost var at;
    received, hashed, result, at := Receive(upload, chunks, raises, maxBytes);
    WhichError(chunks, maxBytes, refuses, raises, at, result);
    if result.Success? {
      var ok := SendLast(upload, received, hashed);
      if ok && upload.completes {
        upload.phase := Completed;
        return;
      }
      result := Failure(ProviderFailed);
    }
    upload.phase := Aborted;
  }

  predicate TooLarge(size: nat, maxBytes: Option<nat>) {
    maxBytes.Some? && size > maxBytes.value
  }

  /** The chunk that takes the bytes past the limit. */
  predicate PassesLimit(chunks: seq<seq<byte>>, maxBytes: Option<nat>, i: nat) {
    i < |chunks| && !TooLarge(|Joined(chunks[..i])|, maxBytes) && TooLarge(|Joined(chunks[..i + 1])|, maxBytes)
  }

  /** The provider takes every part that this many bytes fill. */
  predicate Taken(length: nat, refuses: set<nat>) {
    forall k :: 1 <= k <= length / PART_BYTES ==> k !in refuses
  }

  /** How reading the source ends: at chunk `at`, or with the source. */
  predicate ReadUntil(
      chunks: seq<seq<byte>>, maxBytes: Option<nat>, refuses: set<nat>, raises: bool, at: nat, result: Result<Stored, Error>) {
    match result
    case Failure(ObjectTooLarge) => PassesLimit(chunks, maxBytes, at) && Taken(|Joined(chunks[..at])|, refuses)
    case Failure(ProviderFailed) =>
      && at < |chunks| && !TooLarge(|Joined(chunks[..at + 1])|, maxBytes) && !Taken(|Joined(chunks[..at + 1])|, refuses)
    case Failure(SourceFailed) => raises && !TooLarge(|Joined(chunks)|, maxBytes) && Taken(|Joined(chunks)|, refuses)
    case Success(_) => !raises && !TooLarge(|Joined(chunks)|, maxBytes) && Taken(|Joined(chunks)|, refuses)
  }

  lemma TakenBefore(length: nat, longer: nat, refuses: set<nat>)
    requires length <= longer && Taken(longer, refuses)
    ensures Taken(length, refuses)
  {
    assert length / PART_BYTES <= longer / PART_BYTES;
  }

  lemma {:induction false} JoinedUpTo(chunks: seq<seq<byte>>, i: nat, j: nat)
    requires i <= j <= |chunks|
    ensures |Joined(chunks[..i])| <= |Joined(chunks[..j])|
    decreases j
  {
    if i < j {
      JoinedUpTo(chunks, i, j - 1);
      assert chunks[..j][..j - 1] == chunks[..j - 1];
    }
  }

  lemma LimitIsPassed(chunks: seq<seq<byte>>, maxBytes: Option<nat>, i: nat)
    requires PassesLimit(chunks, maxBytes, i)
    ensures TooLarge(|Joined(chunks)|, maxBytes)
  {
    JoinedUpTo(chunks, i + 1, |chunks|);
    assert chunks[..|chunks|] == chunks;
  }

  lemma PassedOnce(chunks: seq<seq<byte>>, maxBytes: Option<nat>, i: nat, j: nat)
    requires PassesLimit(chunks, maxBytes, i) && j < |chunks| && !TooLarge(|Joined(chunks[..j + 1])|, maxBytes)
    ensures j < i
  {
    if i <= j {
      JoinedUpTo(chunks, i + 1, j + 1);
    }
  }

  lemma RefusedStays(chunks: seq<seq<byte>>, refuses: set<nat>, i: nat, j: nat)
    requires i <= j <= |chunks| && !Taken(|Joined(chunks[..i])|, refuses)
    ensures !Taken(|Joined(chunks[..j])|, refuses)
  {
    JoinedUpTo(chunks, i, j);
    if Taken(|Joined(chunks[..j])|, refuses) {
      TakenBefore(|Joined(chunks[..i])|, |Joined(chunks[..j])|, refuses);
    }
  }

  lemma WhichError(
      chunks: seq<seq<byte>>, maxBytes: Option<nat>, refuses: set<nat>, raises: bool, at: nat, result: Result<Stored, Error>)
    requires ReadUntil(chunks, maxBytes, refuses, raises, at, result)
    ensures result.Failure? && result.error.ObjectTooLarge?
       <==> exists i: nat :: PassesLimit(chunks, maxBytes, i) && Taken(|Joined(chunks[..i])|, refuses)
    ensures result.Failure? && result.error.SourceFailed?
       <==> raises && !TooLarge(|Joined(chunks)|, maxBytes) && Taken(|Joined(chunks)|, refuses)
  {
    var refused := result.Failure? && result.error.ProviderFailed?;
    if i: nat :| PassesLimit(chunks, maxBytes, i) && Taken(|Joined(chunks[..i])|, refuses) {
      LimitIsPassed(chunks, maxBytes, i);
      if refused {
        PassedOnce(chunks, maxBytes, i, at);
        RefusedStays(chunks, refuses, at + 1, i);
      }
    }
    if refused {
      assert chunks[..|chunks|] == chunks;
      RefusedStays(chunks, refuses, at + 1, |chunks|);
    } else if result.Failure? && result.error.ObjectTooLarge? {
      LimitIsPassed(chunks, maxBytes, at);
    }
  }

  predicate Storable(data: seq<byte>, maxBytes: Option<nat>, refuses: set<nat>, completes: bool) {
    && !TooLarge(|data|, maxBytes) && completes
    && forall k :: 1 <= k <= PartCount(|data|) ==> k !in refuses
  }

  lemma TailSent(sent: seq<seq<byte>>, tail: seq<byte>, data: seq<byte>)
    requires AllFull(sent) && |tail| < PART_BYTES && (tail != [] || sent == [])
    requires Joined(sent) + tail == data
    ensures Cut(data) == sent + [tail]
  {
    JoinedConcat(sent, [tail]);
    JoinedOne(tail);
    FullThenLast(sent, tail);
  }

  lemma FullOnly(sent: seq<seq<byte>>, data: seq<byte>)
    requires AllFull(sent) && sent != [] && Joined(sent) + [] == data
    ensures Cut(data) == sent
  {
    var n := |sent| - 1;
    assert sent == sent[..n] + [sent[n]];
    assert Joined(sent) + [] == Joined(sent);
    FullThenLast(sent[..n], sent[n]);
  }

  lemma {:induction false} FullLength(sent: seq<seq<byte>>)
    requires AllFull(sent)
    ensures |Joined(sent)| == PART_BYTES * |sent|
  {
    if sent != [] {
      var n := |sent| - 1;
      FullLength(sent[..n]);
      assert |sent[n]| == PART_BYTES && |Joined(sent)| == |Joined(sent[..n])| + |sent[n]|;
    }
  }

  /** A refused part is one that this many bytes would need. */
  lemma RefusedIsNeeded(sent: seq<seq<byte>>, left: seq<byte>, length: nat)
    requires AllFull(sent) && |left| >= PART_BYTES && |Joined(sent)| + |left| <= length
    ensures |sent| + 1 <= PartCount(length)
  {
    FullLength(sent);
  }

  /** Full parts and less than one more: those are the parts the bytes fill. */
  lemma AllTaken(sent: seq<seq<byte>>, left: seq<byte>, refuses: set<nat>)
    requires AllFull(sent) && |left| < PART_BYTES && forall k :: 0 < k <= |sent| ==> k !in refuses
    ensures Taken(|Joined(sent) + left|, refuses)
  {
    FullLength(sent);
  }

  lemma RefusedIsFull(sent: seq<seq<byte>>, left: seq<byte>, refuses: set<nat>)
    requires AllFull(sent) && |left| >= PART_BYTES && |sent| + 1 in refuses
    ensures !Taken(|Joined(sent) + left|, refuses)
  {
    FullLength(sent);
    assert 1 <= |sent| + 1 <= |Joined(sent) + left| / PART_BYTES;
  }

  /** The loop over the source, which yields its chunks and then ends, or raises.
      What is left at the end is less than a part. */
  method Receive(upload: Upload, chunks: seq<seq<byte>>, raises: bool, maxBytes: Option<nat>)
    returns (buffer: seq<byte>, hashed: seq<byte>, result: Result<Stored, Error>, ghost at: nat)
    requires upload.parts == []
    modifies upload`parts
    ensures NumberedUp(upload.parts)
    ensures result.Success? ==> !raises
    ensures result.Success? ==>
              && hashed == Joined(chunks) && result.value == Stored(|hashed|, hashed)
              && !TooLarge(|hashed|, maxBytes)
              && AllFull(Bodies(upload.parts)) && Joined(Bodies(upload.parts)) + buffer == hashed && |buffer| < PART_BYTES
              && (forall k :: 0 < k <= |upload.parts| ==> k !in upload.refuses)
    ensures ReadUntil(chunks, maxBytes, upload.refuses, raises, at, result)
    ensures result.Failure? ==> raises || !Storable(Joined(chunks), maxBytes, upload.refuses, upload.completes)
  {
    buffer, hashed, at := [], [], 0;
    var total := 0;
    var i := 0;
    assert Joined(Bodies(upload.parts)) == [] && chunks[..|chunks|] == chunks;
    while i < |chunks|
      invariant 0 <= i <= |chunks|
      invariant hashed == Joined(chunks[..i]) && total == |hashed| && !TooLarge(total, maxBytes)
      invariant NumberedUp(upload.parts) && AllFull(Bodies(upload.parts)) && |buffer| < PART_BYTES
      invariant Joined(Bodies(upload.parts)) + buffer == hashed
      invariant forall k :: 0 < k <= |upload.parts| ==> k !in upload.refuses
    {
      var chunk := chunks[i];
      at := i;
      assert chunks[..i + 1][..i] == chunks[..i];
      JoinedUpTo(chunks, i + 1, |chunks|);
      AllTaken(Bodies(upload.parts), buffer, upload.refuses);
      if chunk != [] {
        total := total + |chunk|;
        if maxBytes.Some? && total > maxBytes.value {
          return buffer, hashed, Failure(ObjectTooLarge), i;
        }
        ghost var before := Joined(Bodies(upload.parts));
        assert before + (buffer + chunk) == (before + buffer) + chunk;
        hashed := hashed + chunk;
        var ok;
        buffer, ok := Trim(upload, buffer + chunk);
        if !ok {
          RefusedIsNeeded(Bodies(upload.parts), buffer, |Joined(chunks)|);
          RefusedIsFull(Bodies(upload.parts), buffer, upload.refuses);
          return buffer, hashed, Failure(ProviderFailed), i;
        }
      } else {
        assert hashed + chunk == hashed;
      }
      i := i + 1;
    }
    AllTaken(Bodies(upload.parts), buffer, upload.refuses);
    if raises {
      return buffer, hashed, Failure(SourceFailed), at;
    }
    result := Success(Stored(total, hashed));
  }
}
