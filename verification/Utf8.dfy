/** UTF-8 (section 3 of RFC 3629). */
module Utf8 {
  import opened Wrappers

  function Utf8Size(c: char): nat {
    var n := c as int;
    if n < 0x80 then 1 else if n < 0x800 then 2 else if n < 0x10000 then 3 else 4
  }

  function EncodeChar(c: char): (r: seq<byte>)
    ensures |r| == Utf8Size(c) && !Continuation(r[0])
    ensures forall i :: 0 < i < |r| ==> Continuation(r[i])
  {
    var n := c as int;
    if n < 0x80 then [n]
    else if n < 0x800 then [0xC0 + n / 64, 0x80 + n % 64]
    else if n < 0x10000 then [0xE0 + n / 64 / 64, 0x80 + n / 64 % 64, 0x80 + n % 64]
    else [0xF0 + n / 64 / 64 / 64, 0x80 + n / 64 / 64 % 64, 0x80 + n / 64 % 64, 0x80 + n % 64]
  }

  /** `byte & 0xC0 == 0x80`: the top two bits are `10`. */
  predicate Continuation(b: byte) {
    b / 64 == 2
  }

  function Encode(text: string): seq<byte> {
    if text == [] then [] else EncodeChar(text[0]) + Encode(text[1..])
  }

  /** The first byte of a character says how many it has. */
  function SizeOf(b: byte): nat {
    if b < 0x80 then 1 else if b < 0xE0 then 2 else if b < 0xF0 then 3 else 4
  }

  lemma SizeIsInFirstByte(c: char)
    ensures SizeOf(EncodeChar(c)[0]) == Utf8Size(c)
  {
  }

  function Low(b: byte): int {
    b as int % 64
  }

  /** What the bytes of one character stand for. */
  function CodePoint(bytes: seq<byte>): int
    requires 1 <= |bytes| <= 4
  {
    if |bytes| == 1 then bytes[0] as int
    else if |bytes| == 2 then (bytes[0] as int - 0xC0) * 64 + Low(bytes[1])
    else if |bytes| == 3 then ((bytes[0] as int - 0xE0) * 64 + Low(bytes[1])) * 64 + Low(bytes[2])
    else (((bytes[0] as int - 0xF0) * 64 + Low(bytes[1])) * 64 + Low(bytes[2])) * 64 + Low(bytes[3])
  }

  lemma CodePointOfEncoded(c: char)
    ensures CodePoint(EncodeChar(c)) == c as int
  {
    var n := c as int;
    var m := n / 64;
    var k := m / 64;
    assert n == m * 64 + n % 64 && m == k * 64 + m % 64 && k == k / 64 * 64 + k % 64;
    var bytes := EncodeChar(c);
    if |bytes| == 2 {
      assert Low(bytes[1]) == n % 64;
    } else if |bytes| == 3 {
      assert Low(bytes[1]) == m % 64 && Low(bytes[2]) == n % 64;
    } else if |bytes| == 4 {
      assert Low(bytes[1]) == k % 64 && Low(bytes[2]) == m % 64 && Low(bytes[3]) == n % 64;
    }
  }

  lemma {:induction false} EncodeConcat(a: string, b: string)
    ensures Encode(a + b) == Encode(a) + Encode(b)
  {
    if a == "" {
      assert a + b == b;
    } else {
      assert (a + b)[0] == a[0] && (a + b)[1..] == a[1..] + b;
      EncodeConcat(a[1..], b);
    }
  }

  lemma EncodeCharInjective(c: char, d: char)
    requires EncodeChar(c) == EncodeChar(d)
    ensures c == d
  {
    CodePointOfEncoded(c);
    CodePointOfEncoded(d);
  }

  /** No two texts have the same bytes. */
  lemma {:induction false} EncodeInjective(a: string, b: string)
    requires Encode(a) == Encode(b)
    ensures a == b
    decreases |a|
  {
    if a != "" && b != "" {
      SizeIsInFirstByte(a[0]);
      SizeIsInFirstByte(b[0]);
      assert Encode(a)[0] == EncodeChar(a[0])[0] && Encode(b)[0] == EncodeChar(b[0])[0];
      var n := Utf8Size(a[0]);
      assert Encode(a)[..n] == EncodeChar(a[0]) && Encode(b)[..n] == EncodeChar(b[0]);
      assert Encode(a)[n..] == Encode(a[1..]) && Encode(b)[n..] == Encode(b[1..]);
      EncodeCharInjective(a[0], b[0]);
      EncodeInjective(a[1..], b[1..]);
      assert a == [a[0]] + a[1..] && b == [b[0]] + b[1..];
    }
  }
}
