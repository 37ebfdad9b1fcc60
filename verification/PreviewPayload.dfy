/**
 Splitting a preview on a byte budget without splitting a character in half.
 */
module PreviewPayload {
  import opened DeltaBuffer
  import opened Utf8
  import opened Wrappers

  const DELTA_PAYLOAD_BUDGET_BYTES: nat := 6000

  /** A byte that continues nothing begins a character. */
  lemma {:induction false} CutBetweenCharacters(text: string, cut: nat) returns (k: nat)
    requires cut < |Encode(text)| && !Continuation(Encode(text)[cut])
    ensures k < |text| && (cut > 0 ==> k > 0)
    ensures Encode(text)[..cut] == Encode(text[..k])
    ensures Encode(text)[cut..] == Encode(text[k..])
    decreases |text|
  {
    var head, tail := EncodeChar(text[0]), Encode(text[1..]);
    if cut == 0 {
      k := 0;
    } else {
      CutPastHead(head, tail, cut);
      var j := CutBetweenCharacters(text[1..], cut - |head|);
      k := j + 1;
      assert text[..k][0] == text[0] && text[..k][1..] == text[1..][..j];
      assert text[k..] == text[1..][j..];
    }
  }

  lemma CutPastHead(head: seq<byte>, tail: seq<byte>, cut: nat)
    requires 0 < cut < |head + tail| && !Continuation((head + tail)[cut])
    requires forall i :: 0 < i < |head| ==> Continuation(head[i])
    ensures |head| <= cut && !Continuation(tail[cut - |head|])
    ensures (head + tail)[..cut] == head + tail[..cut - |head|]
    ensures (head + tail)[cut..] == tail[cut - |head|..]
  {
  }

  /** No four bytes in a row all continue one character. */
  lemma {:induction false} BoundaryNearby(text: string, at: nat)
    requires at + 4 <= |Encode(text)|
    ensures exists i :: at <= i < at + 4 && !Continuation(Encode(text)[i])
    decreases |text|
  {
    var head, tail := EncodeChar(text[0]), Encode(text[1..]);
    var raw := Encode(text);
    if at == 0 {
      assert !Continuation(raw[0]);
    } else if at >= |head| {
      BoundaryNearby(text[1..], at - |head|);
      var i :| at - |head| <= i < at - |head| + 4 && !Continuation(tail[i]);
      assert raw[i + |head|] == tail[i];
    } else {
      assert tail == EncodeChar(text[1]) + Encode(text[1..][1..]);
      assert raw[|head|] == tail[0] == EncodeChar(text[1])[0];
    }
  }

  /** Every piece is whole characters and fits the budget, and together they are
      the text. */
  ghost predicate Splits(pieces: seq<seq<byte>>, texts: seq<string>, text: string) {
    && |pieces| == |texts| && Joined(texts) == text
    && forall i :: 0 <= i < |pieces| ==> Fits(pieces[i], texts[i])
  }

  ghost predicate Fits(piece: seq<byte>, text: string) {
    piece == Encode(text) && 0 < |piece| <= DELTA_PAYLOAD_BUDGET_BYTES
  }

  lemma SplitsOneMore(pieces: seq<seq<byte>>, texts: seq<string>, done: string, piece: seq<byte>, text: string)
    requires Splits(pieces, texts, done) && Fits(piece, text)
    ensures Splits(pieces + [piece], texts + [text], done + text)
  {
    JoinedOneMore(texts, text);
    var longer, more := pieces + [piece], texts + [text];
    forall i | 0 <= i < |longer|
      ensures Fits(longer[i], more[i])
    {
      if i < |pieces| {
        assert longer[i] == pieces[i] && more[i] == texts[i] && Fits(pieces[i], texts[i]);
      } else {
        assert longer[i] == piece && more[i] == text;
      }
    }
  }

  lemma SplitsInto(pieces: seq<seq<byte>>, texts: seq<string>, text: string)
    requires Splits(pieces, texts, text)
    ensures |pieces| == |texts| && Joined(texts) == text
    ensures forall i :: 0 <= i < |pieces| ==> pieces[i] == Encode(texts[i]) && 0 < |pieces[i]| <= 6000
  {
    assert forall i :: 0 <= i < |pieces| ==> Fits(pieces[i], texts[i]);
  }

  ghost predicate AllLong(pieces: seq<seq<byte>>) {
    forall i :: 0 <= i < |pieces| ==> |pieces[i]| >= 5997
  }

  lemma LongOneMore(pieces: seq<seq<byte>>, piece: seq<byte>)
    requires AllLong(pieces) && |piece| >= 5997
    ensures AllLong(pieces + [piece])
  {
  }

  lemma LongButLast(pieces: seq<seq<byte>>, last: seq<byte>)
    requires AllLong(pieces)
    ensures forall i :: 0 <= i < |pieces + [last]| - 1 ==> |(pieces + [last])[i]| >= 5997
  {
  }

  lemma LongThroughout(pieces: seq<seq<byte>>)
    requires AllLong(pieces)
    ensures forall i :: 0 <= i < |pieces| - 1 ==> |pieces[i]| >= 5997
  {
  }

  lemma NothingEncodesToNothing(text: string)
    requires Encode(text) == []
    ensures text == []
  {
  }

  lemma CutInTwo(raw: seq<byte>, text: string, cut: nat) returns (head: string, tail: string)
    requires raw == Encode(text) && 0 < cut < |raw| && !Continuation(raw[cut])
    ensures text == head + tail && raw[..cut] == Encode(head) && raw[cut..] == Encode(tail)
  {
    var k := CutBetweenCharacters(text, cut);
    head, tail := text[..k], text[k..];
  }

  lemma TakesOne(pieces: seq<seq<byte>>, texts: seq<string>, done: string, left: seq<byte>, rest: string, cut: nat)
    returns (head: string, tail: string)
    requires Splits(pieces, texts, done) && left == Encode(rest)
    requires 0 < cut <= DELTA_PAYLOAD_BUDGET_BYTES < |left| && !Continuation(left[cut])
    ensures Splits(pieces + [left[..cut]], texts + [head], done + head)
    ensures left[cut..] == Encode(tail) && done + head + tail == done + rest
  {
    head, tail := CutInTwo(left, rest, cut);
    SplitsOneMore(pieces, texts, done, left[..cut], head);
    assert done + (head + tail) == (done + head) + tail;
  }

  method WithinPayloadBudget(raw: seq<byte>, ghost text: string) returns (pieces: seq<seq<byte>>, ghost texts: seq<string>)
    requires raw == Encode(text)
    ensures |pieces| == |texts| && Joined(texts) == text
    ensures forall i :: 0 <= i < |pieces| ==> pieces[i] == Encode(texts[i]) && 0 < |pieces[i]| <= 6000
    ensures forall i :: 0 <= i < |pieces| - 1 ==> |pieces[i]| >= 5997
    ensures 0 < |raw| <= 6000 ==> pieces == [raw]
  {
    pieces, texts := [], [];
    var left := raw;
    ghost var done, rest := "", text;
    while left != []
      invariant left == Encode(rest) && done + rest == text
      invariant Splits(pieces, texts, done)
      invariant AllLong(pieces)
      invariant 0 < |raw| <= DELTA_PAYLOAD_BUDGET_BYTES ==> pieces == [] && left == raw
      decreases |left|
    {
      if |left| <= DELTA_PAYLOAD_BUDGET_BYTES {
        SplitsOneMore(pieces, texts, done, left, rest);
        SplitsInto(pieces + [left], texts + [rest], text);
        LongButLast(pieces, left);
        return pieces + [left], texts + [rest];
      }
      var cut := FindCut(left, rest);
      ghost var head, tail := TakesOne(pieces, texts, done, left, rest, cut);
      LongOneMore(pieces, left[..cut]);
      pieces, texts := pieces + [left[..cut]], texts + [head];
      left, done, rest := left[cut..], done + head, tail;
    }
    NothingEncodesToNothing(rest);
    assert done + [] == done;
    SplitsInto(pieces, texts, text);
    LongThroughout(pieces);
  }

  /** Walks back off any continuation byte; never as far as the start. */
  method FindCut(raw: seq<byte>, ghost text: string) returns (cut: nat)
    requires raw == Encode(text) && |raw| > DELTA_PAYLOAD_BUDGET_BYTES
    ensures 5997 <= cut <= 6000 && !Continuation(raw[cut])
    ensures forall k :: cut < k <= 6000 ==> Continuation(raw[k])
  {
    cut := DELTA_PAYLOAD_BUDGET_BYTES;
    BoundaryNearby(text, DELTA_PAYLOAD_BUDGET_BYTES - 3);
    ghost var i :| DELTA_PAYLOAD_BUDGET_BYTES - 3 <= i < DELTA_PAYLOAD_BUDGET_BYTES + 1 && !Continuation(raw[i]);
    while cut > 0 && Continuation(raw[cut])
      invariant i <= cut <= DELTA_PAYLOAD_BUDGET_BYTES
      invariant forall k :: cut < k <= DELTA_PAYLOAD_BUDGET_BYTES ==> Continuation(raw[k])
    {
      cut := cut - 1;
    }
  }
}
