/**
 The envelope around a stored provider key. The cipher itself is a parameter: an
 authenticated encryption that is ideal in the sense of `Ideal`. What is modelled
 and proved is everything this service puts around it.
 */
module SecretEnvelope {
  import opened Base64
  import opened Text
  import opened Utf8
  import opened Wrappers

  const VERSION := "v1"
  const NONCE_BYTES: nat := 12
  const AAD_DOMAIN := "vma/openrouter-key"
  const LENGTH_LIMIT: nat := 0x1_0000_0000

  datatype Error = BadContext | EmptyPlaintext | BadEnvelope | UnsupportedVersion | NotBase64 | BadNonce | NotAuthentic

  // --- unpadded base64url -----------------------------------------------------

  function EncodeUrl(b: seq<byte>): string {
    Letters(Sextets(b), true)
  }

  /** An empty component is refused before anything is decoded. */
  function DecodeUrl(s: string): Result<seq<byte>, Error> {
    if s == "" then Failure(NotBase64)
    else match Decode(PaddedOut(s), true)
      case None => Failure(NotBase64)
      case Some(b) => Success(b)
  }

  /** Decoding undoes encoding, for every bytes but none at all. */
  lemma UrlRoundTrip(b: seq<byte>)
    ensures DecodeUrl(EncodeUrl(b)) == Success(b) <==> b != []
  {
    DecodeLetters(b, true);
  }

  lemma UrlIsClean(b: seq<byte>)
    ensures '.' !in EncodeUrl(b)
  {
    LettersAreClean(Sextets(b), true);
  }

  // --- what the ciphertext is bound to -------------------------------------------

  /** `struct.pack("!I", n)` */
  function BigEndian32(n: nat): (r: seq<byte>)
    requires n < LENGTH_LIMIT
    ensures |r| == 4
  {
    [n / 0x100_0000, n / 0x1_0000 % 256, n / 256 % 256, n % 256]
  }

  lemma BigEndian32Injective(n: nat, m: nat)
    requires n < LENGTH_LIMIT && m < LENGTH_LIMIT && BigEndian32(n) == BigEndian32(m)
    ensures n == m
  {
    Reassemble(n);
    Reassemble(m);
  }

  lemma Reassemble(n: nat)
    requires n < LENGTH_LIMIT
    ensures var b := BigEndian32(n); n == ((b[0] as int * 256 + b[1] as int) * 256 + b[2] as int) * 256 + b[3] as int
  {
    var a := n / 256;
    var b := a / 256;
    assert n / 0x1_0000 == b && n / 0x100_0000 == b / 256;
  }

  /** A value with no space around it, not empty, and not too long to frame. */
  predicate Canonical(value: string) {
    value != "" && value == Strip(value) && |Encode(value)| < LENGTH_LIMIT
  }

  function Framed(value: string): seq<byte>
    requires Canonical(value)
  {
    BigEndian32(|Encode(value)|) + Encode(value)
  }

  function Aad(organization: string, keyHash: string): Result<seq<byte>, Error> {
    if !Canonical(organization) || !Canonical(keyHash) then Failure(BadContext)
    else Success(Preamble() + (Framed(organization) + Framed(keyHash)))
  }

  function Preamble(): seq<byte> {
    Encode(AAD_DOMAIN) + [0] + Encode(VERSION)
  }

  /** What there is additional data for, and how it is laid out. */
  lemma AadIs(organization: string, keyHash: string)
    ensures Aad(organization, keyHash).Success?
       <==> && organization != "" && organization == Strip(organization) && |Encode(organization)| <= 0xFFFF_FFFF
            && keyHash != "" && keyHash == Strip(keyHash) && |Encode(keyHash)| <= 0xFFFF_FFFF
    ensures Aad(organization, keyHash).Success? ==> (
              var owner := BigEndian32(|Encode(organization)|) + Encode(organization);
              var key := BigEndian32(|Encode(keyHash)|) + Encode(keyHash);
              Aad(organization, keyHash).value == Encode("vma/openrouter-key") + [0] + Encode("v1") + (owner + key))
    ensures Aad(organization, keyHash).Failure? ==> Aad(organization, keyHash).error.BadContext?
  {
  }

  lemma CancelPrefix<T>(head: seq<T>, a: seq<T>, b: seq<T>)
    requires head + a == head + b
    ensures a == b
  {
    assert a == (head + a)[|head|..] && b == (head + b)[|head|..];
  }

  /** Where one framed value ends is known before the next begins. */
  lemma FramedUnambiguous(a: string, rest: seq<byte>, b: string, other: seq<byte>)
    requires Canonical(a) && Canonical(b)
    requires Framed(a) + rest == Framed(b) + other
    ensures a == b && rest == other
  {
    var s := Framed(a) + rest;
    assert s[..4] == BigEndian32(|Encode(a)|) && s[..4] == BigEndian32(|Encode(b)|);
    BigEndian32Injective(|Encode(a)|, |Encode(b)|);
    var n := 4 + |Encode(a)|;
    assert s[4..n] == Encode(a) && s[4..n] == Encode(b);
    assert s[n..] == rest && s[n..] == other;
    EncodeInjective(a, b);
  }

  /** Different owners or different keys never share their additional data. */
  lemma AadInjective(organization: string, keyHash: string, other: string, otherHash: string)
    requires Aad(organization, keyHash).Success? && Aad(other, otherHash).Success?
    requires Aad(organization, keyHash) == Aad(other, otherHash)
    ensures organization == other && keyHash == otherHash
  {
    CancelPrefix(Preamble(), Framed(organization) + Framed(keyHash), Framed(other) + Framed(otherHash));
    FramedUnambiguous(organization, Framed(keyHash), other, Framed(otherHash));
    assert Framed(keyHash) + [] == Framed(otherHash) + [];
    FramedUnambiguous(keyHash, [], otherHash, []);
  }

  // --- the cipher --------------------------------------------------------------------

  datatype Aead = Aead(
    seal: (seq<byte>, seq<byte>, seq<byte>) -> seq<byte>,
    unseal: (seq<byte>, seq<byte>, seq<byte>) -> Option<seq<byte>>)

  /** It opens what it sealed, nothing else, and only with the same data. */
  ghost predicate Ideal(a: Aead) {
    && (forall nonce, text, data :: a.unseal(nonce, a.seal(nonce, text, data), data) == Some(text))
    && (forall nonce, sealed, data ::
          a.unseal(nonce, sealed, data).Some? ==> sealed == a.seal(nonce, a.unseal(nonce, sealed, data).value, data))
    && (forall nonce, text, data, text', data' ::
          a.seal(nonce, text, data) == a.seal(nonce, text', data') ==> data == data')
    && (forall nonce, text, data :: a.seal(nonce, text, data) != [])
  }

  lemma UnsealsOnlyItsOwn(a: Aead, nonce: seq<byte>, text: seq<byte>, data: seq<byte>, other: seq<byte>)
    requires Ideal(a)
    ensures a.unseal(nonce, a.seal(nonce, text, data), other) == if other == data then Some(text) else None
  {
    var sealed := a.seal(nonce, text, data);
    if a.unseal(nonce, sealed, other).Some? {
      assert sealed == a.seal(nonce, a.unseal(nonce, sealed, other).value, other);
    }
  }

  function Token(nonce: seq<byte>, sealed: seq<byte>): string {
    VERSION + "." + EncodeUrl(nonce) + "." + EncodeUrl(sealed)
  }

  function Encrypt(a: Aead, nonce: seq<byte>, plaintext: string, organization: string, keyHash: string): Result<string, Error> {
    if plaintext == "" then Failure(EmptyPlaintext)
    else match Aad(organization, keyHash)
      case Failure(e) => Failure(e)
      case Success(data) => Success(Token(nonce, a.seal(nonce, Encode(plaintext), data)))
  }

  /** Opens a token to the bytes it holds. */
  function Open(a: Aead, token: string, organization: string, keyHash: string): Result<seq<byte>, Error> {
    var parts := Split(token, '.');
    if |parts| != 3 then Failure(BadEnvelope)
    else if parts[0] != VERSION then Failure(UnsupportedVersion)
    else Unsealed(a, DecodeUrl(parts[1]), DecodeUrl(parts[2]), Aad(organization, keyHash))
  }

  function Unsealed(a: Aead, nonce: Result<seq<byte>, Error>, sealed: Result<seq<byte>, Error>, aad: Result<seq<byte>, Error>)
    : Result<seq<byte>, Error>
  {
    match (nonce, sealed)
    case (Success(n), Success(s)) => if |n| != NONCE_BYTES then Failure(BadNonce) else Opened(a, n, s, aad)
    case _ => Failure(NotBase64)
  }

  /** `decrypt`: what it gives is the text whose bytes these are. */
  ghost predicate Decrypts(a: Aead, token: string, organization: string, keyHash: string, plaintext: string) {
    Open(a, token, organization, keyHash) == Success(Encode(plaintext))
  }

  /** A token falls apart into exactly its three components. */
  lemma TokenSplits(nonce: seq<byte>, sealed: seq<byte>)
    ensures Split(Token(nonce, sealed), '.') == ["v1", EncodeUrl(nonce), EncodeUrl(sealed)]
  {
    UrlIsClean(nonce);
    UrlIsClean(sealed);
    var n, c := EncodeUrl(nonce), EncodeUrl(sealed);
    assert Token(nonce, sealed) == VERSION + ['.'] + (n + ['.'] + c);
    SplitFirst(VERSION, n + ['.'] + c, '.');
    SplitFirst(n, c, '.');
    SplitWhole(c, '.');
  }

  /** What opening comes to once the token is apart. */
  function Opened(a: Aead, nonce: seq<byte>, sealed: seq<byte>, aad: Result<seq<byte>, Error>): Result<seq<byte>, Error> {
    match aad
    case Failure(e) => Failure(e)
    case Success(data) =>
      match a.unseal(nonce, sealed, data)
      case None => Failure(NotAuthentic)
      case Some(bytes) => Success(bytes)
  }

  /** A secret is sealed unless it is empty, or one of what it is for is not canonical. */
  lemma EncryptsIff(a: Aead, nonce: seq<byte>, plaintext: string, organization: string, keyHash: string)
    ensures Encrypt(a, nonce, plaintext, organization, keyHash).Success?
       <==> plaintext != "" && Aad(organization, keyHash).Success?
    ensures Encrypt(a, nonce, plaintext, organization, keyHash).Failure? ==>
              (Encrypt(a, nonce, plaintext, organization, keyHash).error.EmptyPlaintext? <==> plaintext == "")
    ensures Encrypt(a, nonce, plaintext, organization, keyHash).Success? ==> (
              var sealed := a.seal(nonce, Encode(plaintext), Aad(organization, keyHash).value);
              var token := Encrypt(a, nonce, plaintext, organization, keyHash).value;
              Split(token, '.') == ["v1", EncodeUrl(nonce), EncodeUrl(sealed)])
  {
    if Aad(organization, keyHash).Success? {
      TokenSplits(nonce, a.seal(nonce, Encode(plaintext), Aad(organization, keyHash).value));
    }
  }

  /** Which refusal a token gets: first for its shape, then its version, and then for
      what is in it. */
  lemma OpenRefuses(a: Aead, token: string, organization: string, keyHash: string)
    ensures var parts := Split(token, '.');
            && (|parts| != 3 ==> Open(a, token, organization, keyHash) == Failure(BadEnvelope))
            && (|parts| == 3 && parts[0] != "v1" ==> Open(a, token, organization, keyHash) == Failure(UnsupportedVersion))
            && (|parts| == 3 && parts[0] == "v1" ==>
                  Open(a, token, organization, keyHash)
                  == Unsealed(a, DecodeUrl(parts[1]), DecodeUrl(parts[2]), Aad(organization, keyHash)))
  {
  }

  /** A component that cannot be decoded, then a nonce that is not twelve bytes, then
      what is asked for not being canonical; and otherwise the cipher decides. */
  lemma UnsealedRefuses(a: Aead, nonce: Result<seq<byte>, Error>, sealed: Result<seq<byte>, Error>, aad: Result<seq<byte>, Error>)
    requires aad.Failure? ==> aad.error == BadContext
    ensures var outcome := Unsealed(a, nonce, sealed, aad);
            if nonce.Failure? || sealed.Failure? then outcome == Failure(NotBase64)
            else if |nonce.value| != 12 then outcome == Failure(BadNonce)
            else if aad.Failure? then outcome == Failure(BadContext)
            else if a.unseal(nonce.value, sealed.value, aad.value).None? then outcome == Failure(NotAuthentic)
            else outcome == Success(a.unseal(nonce.value, sealed.value, aad.value).value)
  {
  }

  lemma OpenToken(a: Aead, nonce: seq<byte>, sealed: seq<byte>, organization: string, keyHash: string)
    requires |nonce| == NONCE_BYTES && sealed != []
    ensures Open(a, Token(nonce, sealed), organization, keyHash) == Opened(a, nonce, sealed, Aad(organization, keyHash))
  {
    TokenSplits(nonce, sealed);
    UrlRoundTrip(nonce);
    UrlRoundTrip(sealed);
  }

  /** The additional data is the same exactly for the same owner and key. */
  lemma SameAad(organization: string, keyHash: string, asked: string, askedHash: string)
    requires Aad(organization, keyHash).Success?
    ensures Aad(asked, askedHash) == Aad(organization, keyHash) <==> asked == organization && askedHash == keyHash
  {
    if Aad(asked, askedHash) == Aad(organization, keyHash) {
      AadInjective(organization, keyHash, asked, askedHash);
    }
  }

  /** A stored secret decrypts to what was stored, under the organization and key
      it was stored for, and to nothing at all under any other. */
  lemma OnlyItsOwnerDecrypts(
      a: Aead, nonce: seq<byte>, plaintext: string,
      organization: string, keyHash: string, asked: string, askedHash: string)
    requires Ideal(a) && |nonce| == NONCE_BYTES
    requires Encrypt(a, nonce, plaintext, organization, keyHash).Success?
    ensures var token := Encrypt(a, nonce, plaintext, organization, keyHash).value;
            && (Decrypts(a, token, asked, askedHash, plaintext) <==> asked == organization && askedHash == keyHash)
            && (Open(a, token, asked, askedHash).Success? <==> asked == organization && askedHash == keyHash)
  {
    var data := Aad(organization, keyHash).value;
    OpenToken(a, nonce, a.seal(nonce, Encode(plaintext), data), asked, askedHash);
    SameAad(organization, keyHash, asked, askedHash);
    if Aad(asked, askedHash).Success? {
      UnsealsOnlyItsOwn(a, nonce, Encode(plaintext), data, Aad(asked, askedHash).value);
    }
  }

  /** A token that differs from another only in what decoding does not see: which
      alphabet a letter is from, padding, and the bits of a last letter that no
      byte takes up. */
  predicate Alike(token: string, other: string) {
    var these, those := Split(token, '.'), Split(other, '.');
    && |these| == |those| == 3 && these[0] == those[0]
    && Said(these[1], true).Some? && Said(these[1], true) == Said(those[1], true)
    && Said(these[2], true).Some? && Said(these[2], true) == Said(those[2], true)
  }

  lemma UrlDecodesIffSaid(s: string, b: seq<byte>)
    ensures b != [] ==> (DecodeUrl(s) == Success(b) <==> Said(s, true) == Some(Sextets(b)))
    ensures DecodeUrl(s) != Success([])
  {
    DecodesIffSaid(s, true, b);
    DecodesIffSaid(s, true, []);
    if s != "" {
      SaysSomething(s);
    }
  }

  lemma SaysSomething(s: string)
    requires s != ""
    ensures Said(s, true) != Some([])
  {
    IndicesLength(s[..|s| - PadsOf(s)], true);
  }

  /** Two texts decode alike if and only if they say the same. */
  lemma DecodeAlikeIff(s: string, other: string)
    requires DecodeUrl(s).Success?
    ensures DecodeUrl(other) == DecodeUrl(s) <==> Said(other, true) == Said(s, true)
  {
    UrlDecodesIffSaid(s, DecodeUrl(s).value);
    UrlDecodesIffSaid(other, DecodeUrl(s).value);
  }

  lemma AlikeReads(token: string, nonce: seq<byte>, sealed: seq<byte>)
    requires nonce != [] && sealed != []
    ensures Alike(token, Token(nonce, sealed)) <==>
              var parts := Split(token, '.');
              && |parts| == 3 && parts[0] == VERSION
              && DecodeUrl(parts[1]) == Success(nonce) && DecodeUrl(parts[2]) == Success(sealed)
  {
    TokenSplits(nonce, sealed);
    EncodingSays(nonce, true);
    EncodingSays(sealed, true);
    var parts := Split(token, '.');
    if |parts| == 3 {
      UrlDecodesIffSaid(parts[1], nonce);
      UrlDecodesIffSaid(parts[2], sealed);
    }
  }

  lemma UnsealsIff(a: Aead, nonce: seq<byte>, sealed: seq<byte>, data: seq<byte>, text: seq<byte>)
    requires Ideal(a)
    ensures a.unseal(nonce, sealed, data) == Some(text) <==> sealed == a.seal(nonce, text, data)
    ensures a.seal(nonce, text, data) != []
  {
    assert a.unseal(nonce, a.seal(nonce, text, data), data) == Some(text);
    if a.unseal(nonce, sealed, data) == Some(text) {
      assert sealed == a.seal(nonce, a.unseal(nonce, sealed, data).value, data);
    }
  }

  lemma AlikeOpens(a: Aead, token: string, nonce: seq<byte>, organization: string, keyHash: string, text: seq<byte>)
    requires Ideal(a) && |nonce| == NONCE_BYTES && Aad(organization, keyHash).Success?
    requires Alike(token, Token(nonce, a.seal(nonce, text, Aad(organization, keyHash).value)))
    ensures Open(a, token, organization, keyHash) == Success(text)
  {
    var data := Aad(organization, keyHash).value;
    UnsealsIff(a, nonce, a.seal(nonce, text, data), data, text);
    AlikeReads(token, nonce, a.seal(nonce, text, data));
  }

  lemma OpenedParts(a: Aead, token: string, organization: string, keyHash: string)
    requires Open(a, token, organization, keyHash).Success?
    ensures var parts := Split(token, '.');
            && |parts| == 3 && parts[0] == VERSION && DecodeUrl(parts[1]).Success? && DecodeUrl(parts[2]).Success?
            && |DecodeUrl(parts[1]).value| == NONCE_BYTES && Aad(organization, keyHash).Success?
            && a.unseal(DecodeUrl(parts[1]).value, DecodeUrl(parts[2]).value, Aad(organization, keyHash).value)
               == Some(Open(a, token, organization, keyHash).value)
  {
  }

  lemma OpenedIsAlike(a: Aead, token: string, organization: string, keyHash: string, text: seq<byte>) returns (nonce: seq<byte>)
    requires Ideal(a) && Open(a, token, organization, keyHash) == Success(text)
    ensures |nonce| == NONCE_BYTES && Aad(organization, keyHash).Success?
    ensures Alike(token, Token(nonce, a.seal(nonce, text, Aad(organization, keyHash).value)))
  {
    OpenedParts(a, token, organization, keyHash);
    var data := Aad(organization, keyHash).value;
    nonce := DecodeUrl(Split(token, '.')[1]).value;
    var sealed := DecodeUrl(Split(token, '.')[2]).value;
    UnsealsIff(a, nonce, sealed, data, text);
    AlikeReads(token, nonce, sealed);
  }

  ghost predicate SealedFor(a: Aead, token: string, data: seq<byte>, text: seq<byte>) {
    exists nonce :: |nonce| == NONCE_BYTES && Alike(token, Token(nonce, a.seal(nonce, text, data)))
  }

  /** A token opens to a text, for the pair that asks, if and only if it is one that
      was sealed from that text for that pair: up to what decoding does not see. */
  lemma OnlySealedOpens(a: Aead, token: string, organization: string, keyHash: string, text: seq<byte>)
    requires Ideal(a)
    ensures Open(a, token, organization, keyHash) == Success(text) <==>
              Aad(organization, keyHash).Success? && SealedFor(a, token, Aad(organization, keyHash).value, text)
  {
    if Open(a, token, organization, keyHash) == Success(text) {
      var nonce := OpenedIsAlike(a, token, organization, keyHash, text);
      assert SealedFor(a, token, Aad(organization, keyHash).value, text);
    }
    if Aad(organization, keyHash).Success? && SealedFor(a, token, Aad(organization, keyHash).value, text) {
      var nonce :| |nonce| == NONCE_BYTES && Alike(token, Token(nonce, a.seal(nonce, text, Aad(organization, keyHash).value)));
      AlikeOpens(a, token, nonce, organization, keyHash, text);
    }
  }

  lemma SignedSplits(nonce: seq<byte>, sealed: seq<byte>)
    ensures Split(Token(nonce, sealed) + "=", '.') == [VERSION, EncodeUrl(nonce), EncodeUrl(sealed) + "="]
  {
    UrlIsClean(nonce);
    UrlIsClean(sealed);
    var n, c := EncodeUrl(nonce), EncodeUrl(sealed) + "=";
    assert Token(nonce, sealed) + "=" == VERSION + ['.'] + (n + ['.'] + c);
    SplitFirst(VERSION, n + ['.'] + c, '.');
    SplitFirst(n, c, '.');
    SplitWhole(c, '.');
  }

  /** So a sealed text whose length is no multiple of three has more tokens than the
      one that was made: with a sign of padding, say, or another last letter. */
  lemma OneMoreSign(a: Aead, nonce: seq<byte>, sealed: seq<byte>, organization: string, keyHash: string)
    requires |nonce| == NONCE_BYTES && |sealed| % 3 != 0
    ensures Open(a, Token(nonce, sealed) + "=", organization, keyHash) == Open(a, Token(nonce, sealed), organization, keyHash)
  {
    TokenSplits(nonce, sealed);
    SignedSplits(nonce, sealed);
    SaidWithSign(sealed);
  }

  lemma {:induction false} SextetsLength(b: seq<byte>)
    ensures |Sextets(b)| % 4 == (if |b| % 3 == 0 then 0 else |b| % 3 + 1)
    decreases |b|
  {
    if |b| >= 3 {
      SextetsLength(b[3..]);
      assert |Sextets(b)| == 4 + |Sextets(b[3..])| && |b| % 3 == |b[3..]| % 3;
    }
  }

  lemma CleanDecodes(text: string, n: nat, letters: seq<sextet>, b: seq<byte>)
    requires '=' !in text && Indices(text, true) == Some(letters) && |text| % 4 != 1 && n <= Short(|text|)
    requires Masked(letters) == Sextets(b) && b != []
    ensures DecodeUrl(text + Padding(n)) == Success(b)
  {
    PadsOfPadded(text, n);
    assert (text + Padding(n))[..|text|] == text;
    IndicesLength(text, true);
    UrlDecodesIffSaid(text + Padding(n), b);
  }

  lemma SaidWithSign(b: seq<byte>)
    requires |b| % 3 != 0
    ensures DecodeUrl(EncodeUrl(b) + "=") == DecodeUrl(EncodeUrl(b))
  {
    var text, letters := EncodeUrl(b), Sextets(b);
    SextetsLength(b);
    LettersAreClean(letters, true);
    IndicesOfLetters(letters, true);
    assert Masked(letters) == letters by {
      SextetsOfBytes(letters);
      BytesOfSextets(b);
    }
    CleanDecodes(text, 1, letters, b);
    UrlRoundTrip(b);
    assert Padding(1) == "=";
  }

  lemma IndicesOfTwo(c: char, d: char, m: sextet, n: sextet)
    requires Index(c, true) == Some(m) && Index(d, true) == Some(n)
    ensures Indices([c, d], true) == Some([m, n])
  {
    assert [c, d][1..] == [d] && [d][1..] == "";
    assert Indices([d], true) == Some([n] + []);
    assert [n] + [] == [n] && [m] + [n] == [m, n];
  }

  /** The same byte, by two last letters. */
  lemma LastBitsUnseen()
    ensures DecodeUrl("AA") == DecodeUrl("AB") == Success([0])
  {
    IndicesOfTwo('A', 'A', 0, 0);
    IndicesOfTwo('A', 'B', 0, 1);
    LastBitsDropped("AA", 0, 0);
    LastBitsDropped("AB", 0, 1);
  }

  lemma LastBitsDropped(text: string, m: sextet, n: sextet)
    requires |text| == 2 && '=' !in text && Indices(text, true) == Some([m, n])
    ensures DecodeUrl(text) == Success([Byte0(m, n)])
  {
    assert text + Padding(0) == text;
    SextetsOfBytes([m, n]);
    CleanDecodes(text, 0, [m, n], [Byte0(m, n)]);
  }

  // --- such a cipher is possible -------------------------------------------------

  /** Data written so that its end shows. */
  function Stuffed(data: seq<byte>): (r: seq<byte>)
    ensures r != []
  {
    if data == [] then [0] else [1, data[0]] + Stuffed(data[1..])
  }

  lemma {:induction false} StuffedEnds(d: seq<byte>, u: seq<byte>, e: seq<byte>, v: seq<byte>)
    requires Stuffed(d) + u == Stuffed(e) + v
    ensures d == e
    decreases |d|
  {
    var s := Stuffed(d) + u;
    assert s[0] == Stuffed(d)[0] == Stuffed(e)[0];
    if d != [] && e != [] {
      assert s[1] == Stuffed(d)[1] == d[0] && s[1] == Stuffed(e)[1] == e[0];
      assert s[2..] == Stuffed(d[1..]) + u && s[2..] == Stuffed(e[1..]) + v;
      StuffedEnds(d[1..], u, e[1..], v);
      assert d == [d[0]] + d[1..] && e == [e[0]] + e[1..];
    }
  }

  function Transparent(): Aead {
    Aead((nonce, text, data) => Stuffed(data) + text,
         (nonce, sealed, data) =>
           if Stuffed(data) <= sealed then Some(sealed[|Stuffed(data)|..]) else None)
  }

  /** The ideal is not a contradiction: here is a cipher, useless as a secret
      keeper, that has all of it. */
  lemma IdealIsPossible()
    ensures Ideal(Transparent())
  {
    var a := Transparent();
    forall nonce, text, data
      ensures a.unseal(nonce, a.seal(nonce, text, data), data) == Some(text)
    {
      assert (Stuffed(data) + text)[|Stuffed(data)|..] == text;
    }
    forall nonce, text, data, text', data' | a.seal(nonce, text, data) == a.seal(nonce, text', data')
      ensures data == data'
    {
      StuffedEnds(data, text, data', text');
    }
  }
}
