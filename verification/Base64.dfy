/** Base64 with either alphabet (sections 4 and 5 of RFC 4648). */
module Base64 {
  import opened Wrappers

  type sextet = n: int | 0 <= n < 64

  /** Three bytes are four sextets; one or two left over are two or three. */
  function Sextets(b: seq<byte>): (r: seq<sextet>)
    ensures |r| % 4 != 1
    ensures r == [] <==> b == []
  {
    if b == [] then []
    else if |b| == 1 then [b[0] / 4, b[0] % 4 * 16]
    else if |b| == 2 then [b[0] / 4, b[0] % 4 * 16 + b[1] / 16, b[1] % 16 * 4]
    else [b[0] / 4, b[0] % 4 * 16 + b[1] / 16, b[1] % 16 * 4 + b[2] / 64, b[2] % 64] + Sextets(b[3..])
  }

  function Byte0(a: int, b: int): byte
    requires 0 <= a < 64 && 0 <= b < 64
  {
    a * 4 + b / 16
  }

  function Byte1(b: int, c: int): byte
    requires 0 <= b < 64 && 0 <= c < 64
  {
    b % 16 * 16 + c / 4
  }

  function Byte2(c: int, d: int): byte
    requires 0 <= c < 64 && 0 <= d < 64
  {
    c % 4 * 64 + d
  }

  function Bytes(s: seq<sextet>): seq<byte> {
    if |s| < 2 then []
    else if |s| == 2 then [Byte0(s[0], s[1])]
    else if |s| == 3 then [Byte0(s[0], s[1]), Byte1(s[1], s[2])]
    else [Byte0(s[0], s[1]), Byte1(s[1], s[2]), Byte2(s[2], s[3])] + Bytes(s[4..])
  }

  lemma ThreeBytes(a: byte, b: byte, c: byte)
    ensures Byte0(a / 4, a % 4 * 16 + b / 16) == a
    ensures Byte1(a % 4 * 16 + b / 16, b % 16 * 4 + c / 64) == b
    ensures Byte2(b % 16 * 4 + c / 64, c % 64) == c
  {
  }

  lemma {:induction false} BytesOfSextets(b: seq<byte>)
    ensures Bytes(Sextets(b)) == b
    decreases |b|
  {
    if |b| >= 3 {
      BytesOfSextets(b[3..]);
      ThreeBytes(b[0], b[1], b[2]);
      assert Sextets(b)[4..] == Sextets(b[3..]);
      assert b == [b[0], b[1], b[2]] + b[3..];
    }
  }

  /** With the bits of the last sextet that no byte takes up as zeros. */
  function Masked(s: seq<sextet>): (r: seq<sextet>)
    ensures |r| == |s|
  {
    if |s| < 2 then s
    else if |s| == 2 then [s[0], s[1] / 16 * 16]
    else if |s| == 3 then [s[0], s[1], s[2] / 4 * 4]
    else [s[0], s[1], s[2], s[3]] + Masked(s[4..])
  }

  lemma FourSextets(a: sextet, b: sextet, c: sextet, d: sextet)
    ensures Byte0(a, b) / 4 == a && Byte0(a, b) % 4 * 16 == b / 16 * 16
    ensures Byte0(a, b) % 4 * 16 + Byte1(b, c) / 16 == b && Byte1(b, c) % 16 * 4 == c / 4 * 4
    ensures Byte1(b, c) % 16 * 4 + Byte2(c, d) / 64 == c && Byte2(c, d) % 64 == d
  {
  }

  lemma SextetsLeftOver(a: sextet, b: sextet, c: sextet)
    ensures Sextets([Byte0(a, b)]) == [a, b / 16 * 16]
    ensures Sextets([Byte0(a, b), Byte1(b, c)]) == [a, b, c / 4 * 4]
  {
    FourSextets(a, b, c, 0);
  }

  /** Decoding drops those bits, and nothing else. */
  lemma {:induction false} SextetsOfBytes(s: seq<sextet>)
    requires |s| % 4 != 1
    ensures Sextets(Bytes(s)) == Masked(s)
    decreases |s|
  {
    if |s| == 2 {
      SextetsLeftOver(s[0], s[1], 0);
    } else if |s| == 3 {
      SextetsLeftOver(s[0], s[1], s[2]);
    } else if |s| > 3 {
      assert |s[4..]| % 4 == |s| % 4;
      SextetsOfBytes(s[4..]);
      FourSextets(s[0], s[1], s[2], s[3]);
      assert Bytes(s)[3..] == Bytes(s[4..]);
    }
  }

  // --- alphabets ----------------------------------------------------------------

  /** Both alphabets, which differ in their last two characters. */
  function Letter(n: sextet, url: bool): char {
    if n < 26 then 'A' + n as char
    else if n < 52 then 'a' + (n - 26) as char
    else if n < 62 then '0' + (n - 52) as char
    else if n == 62 then (if url then '-' else '+')
    else if url then '_' else '/'
  }

  /** Tables 1 and 2 of RFC 4648, line by line. */
  lemma LetterIs(n: sextet)
    ensures n < 26 ==> Letter(n, false) == Letter(n, true) == "ABCDEFGHIJKLMNOPQRSTUVWXYZ"[n]
    ensures 26 <= n < 52 ==> Letter(n, false) == Letter(n, true) == "abcdefghijklmnopqrstuvwxyz"[n - 26]
    ensures 52 <= n < 62 ==> Letter(n, false) == Letter(n, true) == "0123456789"[n - 52]
    ensures 62 <= n ==> Letter(n, false) == "+/"[n - 62] && Letter(n, true) == "-_"[n - 62]
  {
  }

  /** Reading the second alphabet goes by way of the first, and so takes both. */
  function Index(c: char, url: bool): Option<sextet> {
    if 'A' <= c <= 'Z' then Some(c as int - 'A' as int)
    else if 'a' <= c <= 'z' then Some(c as int - 'a' as int + 26)
    else if '0' <= c <= '9' then Some(c as int - '0' as int + 52)
    else if c == Letter(62, url) || c == Letter(62, false) then Some(62)
    else if c == Letter(63, url) || c == Letter(63, false) then Some(63)
    else None
  }

  lemma IndexOfLetter(n: sextet, url: bool)
    ensures Index(Letter(n, url), url) == Some(n)
    ensures Plain(Letter(n, url))
  {
  }

  /** A character is read as the letter it is, in either alphabet for the second,
      and any other character is not read at all. */
  lemma IndexExact(c: char, n: sextet, url: bool)
    ensures Index(c, url) == Some(n) <==> c == Letter(n, false) || (url && c == Letter(n, true))
  {
  }

  /** Not one of the signs that frame encoded text. */
  predicate Plain(c: char) {
    c != '.' && c != '=' && c != ':' && c != '\n'
  }

  function Letters(s: seq<sextet>, url: bool): string {
    seq(|s|, i requires 0 <= i < |s| => Letter(s[i], url))
  }

  function Indices(s: string, url: bool): Option<seq<sextet>> {
    if s == "" then Some([])
    else match (Index(s[0], url), Indices(s[1..], url))
      case (Some(n), Some(rest)) => Some([n] + rest)
      case _ => None
  }

  lemma {:induction false} IndicesOfLetters(s: seq<sextet>, url: bool)
    ensures Indices(Letters(s, url), url) == Some(s)
  {
    if s != [] {
      IndexOfLetter(s[0], url);
      assert Letters(s, url)[0] == Letter(s[0], url) && Letters(s, url)[1..] == Letters(s[1..], url);
      IndicesOfLetters(s[1..], url);
      assert s == [s[0]] + s[1..];
    }
  }

  // --- padding --------------------------------------------------------------------

  function Padding(n: nat): string {
    seq(n, _ => '=')
  }

  /** What makes a length a multiple of four. */
  function Short(length: nat): nat {
    (4 - length % 4) % 4
  }

  /** The trailing `=` signs, counted. */
  function PadsOf(s: string): (n: nat)
    ensures n <= |s|
  {
    if s != "" && s[|s| - 1] == '=' then PadsOf(s[..|s| - 1]) + 1 else 0
  }

  lemma {:induction false} PadsOfPadded(data: string, n: nat)
    requires '=' !in data
    ensures PadsOf(data + Padding(n)) == n
    decreases n
  {
    var s := data + Padding(n);
    if n > 0 {
      assert s[..|s| - 1] == data + Padding(n - 1);
      PadsOfPadded(data, n - 1);
    } else {
      assert s == data;
    }
  }

  /** Decoding text that has been padded out: its letters, and not more than two
      signs of padding. */
  function Decode(padded: string, url: bool): Option<seq<byte>> {
    var pads := PadsOf(padded);
    if pads > 2 || |padded| % 4 != 0 then None
    else match Indices(padded[..|padded| - pads], url)
      case None => None
      case Some(s) => Some(Bytes(s))
  }

  function PaddedOut(text: string): (r: string)
    ensures |r| % 4 == 0
  {
    text + Padding(Short(|text|))
  }

  /** What a text says to the decoder: its letters, less the bits that are dropped,
      if it is well formed with no more padding than its length asks for. */
  function Said(text: string, url: bool): Option<seq<sextet>> {
    var pads := PadsOf(text);
    match Indices(text[..|text| - pads], url)
    case None => None
    case Some(s) => if |s| % 4 == 1 || pads > Short(|s|) then None else Some(Masked(s))
  }

  lemma {:induction false} PadsOfMore(text: string, n: nat)
    ensures PadsOf(text + Padding(n)) == PadsOf(text) + n
    decreases n
  {
    var s := text + Padding(n);
    if n > 0 {
      assert s[..|s| - 1] == text + Padding(n - 1);
      PadsOfMore(text, n - 1);
    } else {
      assert s == text;
    }
  }

  lemma {:induction false} IndicesLength(s: string, url: bool)
    ensures Indices(s, url).Some? ==> |Indices(s, url).value| == |s|
  {
    if s != "" {
      IndicesLength(s[1..], url);
    }
  }

  lemma PadsNeeded(letters: nat, pads: nat)
    ensures pads + Short(letters + pads) <= 2 <==> letters % 4 != 1 && pads <= Short(letters)
  {
  }

  lemma PaddedData(text: string)
    ensures var padded, data := PaddedOut(text), text[..|text| - PadsOf(text)];
            && PadsOf(padded) == PadsOf(text) + Short(|text|)
            && padded[..|padded| - PadsOf(padded)] == data
            && (PadsOf(padded) <= 2 <==> |data| % 4 != 1 && PadsOf(text) <= Short(|data|))
  {
    PadsOfMore(text, Short(|text|));
    PadsNeeded(|text| - PadsOf(text), PadsOf(text));
  }

  /** A text decodes to some bytes exactly if it says what their encoding does. */
  lemma DecodesIffSaid(text: string, url: bool, b: seq<byte>)
    ensures Decode(PaddedOut(text), url) == Some(b) <==> Said(text, url) == Some(Sextets(b))
  {
    var data := text[..|text| - PadsOf(text)];
    PaddedData(text);
    IndicesLength(data, url);
    if Indices(data, url).Some? && |data| % 4 != 1 {
      var letters := Indices(data, url).value;
      SextetsOfBytes(letters);
      BytesOfSextets(b);
      BytesOfSextets(Bytes(letters));
    }
  }

  lemma EncodingSays(b: seq<byte>, url: bool)
    ensures Said(Letters(Sextets(b), url), url) == Some(Sextets(b))
  {
    DecodeLetters(b, url);
    DecodesIffSaid(Letters(Sextets(b), url), url, b);
  }

  function EncodePadded(b: seq<byte>): string {
    PaddedOut(Letters(Sextets(b), false))
  }

  lemma LettersAreClean(s: seq<sextet>, url: bool)
    ensures forall c :: c in Letters(s, url) ==> Plain(c)
  {
    forall i | 0 <= i < |s|
      ensures Plain(Letters(s, url)[i])
    {
      IndexOfLetter(s[i], url);
    }
  }

  lemma ShortIsSmall(n: nat)
    requires n % 4 != 1
    ensures Short(n) <= 2
  {
  }

  lemma DecodePaddedOut(s: seq<sextet>, url: bool)
    requires |s| % 4 != 1
    ensures Decode(PaddedOut(Letters(s, url)), url) == Some(Bytes(s))
  {
    var text := Letters(s, url);
    var padded := PaddedOut(text);
    LettersAreClean(s, url);
    assert '=' !in text;
    PadsOfPadded(text, Short(|text|));
    ShortIsSmall(|text|);
    assert padded[..|padded| - Short(|text|)] == text;
    IndicesOfLetters(s, url);
  }

  lemma DecodeLetters(b: seq<byte>, url: bool)
    ensures Decode(PaddedOut(Letters(Sextets(b), url)), url) == Some(b)
  {
    DecodePaddedOut(Sextets(b), url);
    BytesOfSextets(b);
  }

  /** Padded standard base64 decodes to what was encoded. */
  lemma PaddedRoundTrip(b: seq<byte>)
    ensures Decode(EncodePadded(b), false) == Some(b)
  {
    DecodeLetters(b, false);
  }
}
