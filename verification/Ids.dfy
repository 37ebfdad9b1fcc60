/**
 Identifiers that sort into the order they were created in: UUIDv7 with the
 twelve spare bits used as a counter (sections 5.7 and 6.2 of RFC 9562).
 */
module Ids {
  import opened Wrappers

  const COUNTER_MAX: nat := 4095
  const TIMESTAMP_LIMIT: nat := 0x1_0000_0000_0000

  /** The generator's two globals. */
  datatype State = State(lastMs: nat, counter: nat)

  const FRESH := State(0, 0)

  /** What one call draws: the clock, two random bytes for the counter to start
      from, and the eight of the tail. */
  datatype RawDraw = Draw(now: int, start: seq<byte>, tail: seq<byte>)

  type Draw = d: RawDraw | |d.start| == 2 && |d.tail| == 8 witness Draw(0, [0, 0], [0, 0, 0, 0, 0, 0, 0, 0])

  function Advance(s: State, now: int, start: nat): State {
    if now > s.lastMs then State(now, start)
    else if s.counter < COUNTER_MAX then s.(counter := s.counter + 1)
    else State(s.lastMs + 1, 0)
  }

  /** Two big-endian bytes, `& 0x3FF`. */
  function CounterStart(bytes: seq<byte>): (r: nat)
    requires |bytes| == 2
    ensures r <= 1023
  {
    (bytes[0] as int * 256 + bytes[1] as int) % 1024
  }

  /** The ten low bits of the number the two bytes are. */
  lemma CounterStartIs(n: nat)
    requires n < 65536
    ensures CounterStart(BigEndian(n, 2)) == n % 1024
  {
    assert BigEndian(n / 256, 1) == [] + [n / 256 % 256];
    assert BigEndian(n, 2) == BigEndian(n / 256, 1) + [n % 256];
  }

  function Rank(s: State): nat {
    4096 * s.lastMs + s.counter
  }

  // --- text -------------------------------------------------------------------

  function Digit(n: nat): char
    requires n < 16
  {
    if n < 10 then '0' + n as char else 'a' + (n - 10) as char
  }

  /** `n` in so many hexadecimal digits. */
  function Hex(n: nat, width: nat): (r: string)
    ensures |r| == width
  {
    if width == 0 then "" else Hex(n / 16, width - 1) + [Digit(n % 16)]
  }

  /** The last digit of a number is lower-case, and counts its ones. */
  lemma HexLast(n: nat, width: nat)
    ensures Hex(n, width + 1) == Hex(n / 16, width) + ["0123456789abcdef"[n % 16]]
  {
  }

  function HexOf(bytes: seq<byte>): (r: string)
    ensures |r| == 2 * |bytes|
  {
    if bytes == [] then ""
    else HexOf(bytes[..|bytes| - 1]) + Hex(bytes[|bytes| - 1], 2)
  }

  /** `to_bytes(count, "big")` */
  function BigEndian(n: nat, count: nat): (r: seq<byte>)
    ensures |r| == count
  {
    if count == 0 then [] else BigEndian(n / 256, count - 1) + [n % 256]
  }

  /** How strings compare: at the first difference, or by running out. */
  ghost predicate Before(a: string, b: string) {
    exists k: nat :: DiffersAt(a, b, k)
  }

  predicate DiffersAt(a: string, b: string, k: nat) {
    k <= |a| && k <= |b| && a[..k] == b[..k] && k < |b| && (k == |a| || a[k] < b[k])
  }

  /** That is the order of a dictionary: of any two strings, exactly one comes first,
      unless they are the same. */
  lemma BeforeIsTotal(a: string, b: string)
    ensures a == b ==> !Before(a, b)
    ensures a != b ==> (Before(a, b) <==> !Before(b, a))
  {
    forall k: nat | k <= |a| && k <= |b| && a[..k] == b[..k]
      ensures forall i :: 0 <= i < k ==> a[i] == b[i]
    {
      assert forall i :: 0 <= i < k ==> a[i] == a[..k][i] && b[i] == b[..k][i];
    }
    if a != b {
      var k := FirstDifference(a, b);
      assert DiffersAt(a, b, k) || DiffersAt(b, a, k);
    }
  }

  lemma FirstDifference(a: string, b: string) returns (k: nat)
    requires a != b
    ensures k <= |a| && k <= |b| && a[..k] == b[..k]
    ensures (k == |a| < |b|) || (k == |b| < |a|) || (k < |a| && k < |b| && a[k] != b[k])
  {
    k := 0;
    while k < |a| && k < |b| && a[k] == b[k]
      invariant k <= |a| && k <= |b| && a[..k] == b[..k]
    {
      assert a[..k + 1] == a[..k] + [a[k]] && b[..k + 1] == b[..k] + [b[k]];
      k := k + 1;
    }
    assert a[..|a|] == a && b[..|b|] == b;
  }

  function Id(prefix: string, s: State, tail: seq<byte>): string
    requires |tail| == 8
  {
    prefix + "_" + HexOf(Value(s, tail))
  }

  /** The sixteen bytes: timestamp, version and counter, variant and tail. */
  function Value(s: State, tail: seq<byte>): (r: seq<byte>)
    requires |tail| == 8
    ensures |r| == 16
  {
    BigEndian(s.lastMs, 6) + BigEndian(0x7000 + s.counter, 2) + [tail[0] % 64 + 128] + tail[1..]
  }

  // --- order --------------------------------------------------------------------

  lemma ByteDigits(n: nat)
    ensures n % 256 / 16 == n / 16 % 16 && n % 256 % 16 == n % 16 && n / 16 / 16 == n / 256
  {
    var top, high, low := n / 16 / 16, n / 16 % 16, n % 16;
    assert n == 256 * top + (16 * high + low);
    assert n % 256 == 16 * high + low && n / 256 == top;
    assert (16 * high + low) / 16 == high && (16 * high + low) % 16 == low;
  }

  lemma HexOfLastByte(n: nat, width: nat)
    ensures Hex(n, width + 2) == Hex(n / 256, width) + Hex(n % 256, 2)
  {
    ByteDigits(n);
    assert Hex(n / 16, width + 1) == Hex(n / 256, width) + [Digit(n / 16 % 16)];
    assert Hex(n % 256 / 16, 1) == [] + [Digit(n / 16 % 16)];
    assert Hex(n % 256, 2) == [Digit(n / 16 % 16)] + [Digit(n % 16)];
  }

  lemma {:induction false} HexOfBigEndian(n: nat, count: nat)
    ensures HexOf(BigEndian(n, count)) == Hex(n, 2 * count)
    decreases count
  {
    if count > 0 {
      HexOfBigEndian(n / 256, count - 1);
      var bytes := BigEndian(n, count);
      assert bytes[..count - 1] == BigEndian(n / 256, count - 1) && bytes[count - 1] == n % 256;
      HexOfLastByte(n, 2 * (count - 1));
    }
  }

  lemma {:induction false} HexOfConcat(a: seq<byte>, b: seq<byte>)
    ensures HexOf(a + b) == HexOf(a) + HexOf(b)
    decreases |b|
  {
    if b == [] {
      assert a + b == a;
    } else {
      assert (a + b)[..|a + b| - 1] == a + b[..|b| - 1];
      HexOfConcat(a, b[..|b| - 1]);
    }
  }

  function Pow16(width: nat): nat {
    if width == 0 then 1 else 16 * Pow16(width - 1)
  }

  /** Numbers that fit one width compare as their digits do. */
  lemma {:induction false} HexOrder(n: nat, m: nat, width: nat)
    requires n < m < Pow16(width)
    ensures Before(Hex(n, width), Hex(m, width))
    decreases width
  {
    var a, b := Hex(n, width), Hex(m, width);
    var p, q := Hex(n / 16, width - 1), Hex(m / 16, width - 1);
    assert a[..width - 1] == p && b[..width - 1] == q;
    if n / 16 == m / 16 {
      assert n % 16 < m % 16;
      assert DiffersAt(a, b, width - 1);
    } else {
      HexOrder(n / 16, m / 16, width - 1);
      var k: nat :| DiffersAt(p, q, k);
      BeforeExtends(p, q, [Digit(n % 16)], [Digit(m % 16)]);
    }
  }

  lemma BeforeExtends(a: string, b: string, u: string, v: string)
    requires |a| == |b| && Before(a, b)
    ensures Before(a + u, b + v)
  {
    var k: nat :| DiffersAt(a, b, k);
    assert (a + u)[..k] == a[..k] && (b + v)[..k] == b[..k];
    assert DiffersAt(a + u, b + v, k);
  }

  lemma BeforeUnder(prefix: string, a: string, b: string)
    requires Before(a, b)
    ensures Before(prefix + a, prefix + b)
  {
    var k: nat :| DiffersAt(a, b, k);
    assert (prefix + a)[..|prefix| + k] == prefix + a[..k] == prefix + b[..k] == (prefix + b)[..|prefix| + k];
    assert DiffersAt(prefix + a, prefix + b, |prefix| + k);
  }

  predicate Sound(s: State) {
    s.counter <= COUNTER_MAX
  }

  function Head(s: State): string {
    Hex(s.lastMs, 12) + Hex(0x7000 + s.counter, 4)
  }

  lemma IdShape(prefix: string, s: State, tail: seq<byte>)
    requires |tail| == 8
    ensures Id(prefix, s, tail) == prefix + "_" + (Head(s) + HexOf([tail[0] % 64 + 128] + tail[1..]))
  {
    HexOfBigEndian(s.lastMs, 6);
    HexOfBigEndian(0x7000 + s.counter, 2);
    HexOfConcat(BigEndian(s.lastMs, 6), BigEndian(0x7000 + s.counter, 2));
    HexOfConcat(BigEndian(s.lastMs, 6) + BigEndian(0x7000 + s.counter, 2), [tail[0] % 64 + 128] + tail[1..]);
    assert Value(s, tail)
        == (BigEndian(s.lastMs, 6) + BigEndian(0x7000 + s.counter, 2)) + ([tail[0] % 64 + 128] + tail[1..]);
  }

  lemma Widths()
    ensures Pow16(4) == 0x1_0000 && Pow16(12) == TIMESTAMP_LIMIT
  {
    assert Pow16(2) == 0x100;
    assert Pow16(4) == 0x1_0000;
    assert Pow16(6) == 0x100_0000;
    assert Pow16(8) == 0x1_0000_0000;
    assert Pow16(10) == 0x100_0000_0000;
  }

  lemma LaterOrder(ms: nat, later: nat, c: string, d: string)
    requires ms < later < TIMESTAMP_LIMIT
    ensures Before(Hex(ms, 12) + c, Hex(later, 12) + d)
  {
    Widths();
    HexOrder(ms, later, 12);
    BeforeExtends(Hex(ms, 12), Hex(later, 12), c, d);
  }

  lemma CounterOrder(ms: string, count: nat, later: nat)
    requires count < later <= COUNTER_MAX
    ensures Before(ms + Hex(0x7000 + count, 4), ms + Hex(0x7000 + later, 4))
  {
    Widths();
    HexOrder(0x7000 + count, 0x7000 + later, 4);
    BeforeUnder(ms, Hex(0x7000 + count, 4), Hex(0x7000 + later, 4));
  }

  lemma HeadOrder(s: State, t: State)
    requires Sound(s) && Sound(t) && t.lastMs < TIMESTAMP_LIMIT && Rank(s) < Rank(t)
    ensures Before(Head(s), Head(t))
  {
    if s.lastMs < t.lastMs {
      LaterOrder(s.lastMs, t.lastMs, Hex(0x7000 + s.counter, 4), Hex(0x7000 + t.counter, 4));
    } else {
      CounterOrder(Hex(s.lastMs, 12), s.counter, t.counter);
    }
  }

  /** Whatever their tails, two ids compare as their places in time do. */
  lemma IdOrder(prefix: string, s: State, tail: seq<byte>, t: State, other: seq<byte>)
    requires Sound(s) && Sound(t) && |tail| == 8 && |other| == 8
    requires t.lastMs < TIMESTAMP_LIMIT && Rank(s) < Rank(t)
    ensures Before(Id(prefix, s, tail), Id(prefix, t, other))
  {
    var u, v := HexOf([tail[0] % 64 + 128] + tail[1..]), HexOf([other[0] % 64 + 128] + other[1..]);
    IdShape(prefix, s, tail);
    IdShape(prefix, t, other);
    HeadOrder(s, t);
    BeforeExtends(Head(s), Head(t), u, v);
    BeforeUnder(prefix + "_", Head(s) + u, Head(t) + v);
  }

  // --- every sequence of calls ----------------------------------------------------

  function After(draws: seq<Draw>): State
  {
    if draws == [] then FRESH
    else
      var n := |draws| - 1;
      Advance(After(draws[..n]), draws[n].now, CounterStart(draws[n].start))
  }

  /** The latest the clock has ever said, or its zero. */
  function LatestClock(draws: seq<Draw>): nat {
    if draws == [] then 0
    else
      var before := LatestClock(draws[..|draws| - 1]);
      if draws[|draws| - 1].now > before then draws[|draws| - 1].now else before
  }

  lemma {:induction false} RanksRise(draws: seq<Draw>, i: nat)
    requires i <= |draws|
    ensures Sound(After(draws)) && Sound(After(draws[..i]))
    ensures i < |draws| ==> Rank(After(draws[..i])) < Rank(After(draws))
    decreases |draws|
  {
    if draws != [] {
      var n := |draws| - 1;
      RanksRise(draws[..n], if i <= n then i else n);
      if i <= n {
        assert draws[..n][..i] == draws[..i];
      } else {
        assert draws[..i] == draws;
      }
    }
  }

  /** Ids of one prefix are strictly increasing as strings, whatever the clock
      does and whatever is drawn. */
  lemma IdsSortByCreation(prefix: string, draws: seq<Draw>, i: nat, j: nat)
    requires i < j < |draws| && After(draws[..j + 1]).lastMs < TIMESTAMP_LIMIT
    ensures Before(Id(prefix, After(draws[..i + 1]), draws[i].tail), Id(prefix, After(draws[..j + 1]), draws[j].tail))
  {
    RanksRise(draws[..j + 1], i + 1);
    assert draws[..j + 1][..i + 1] == draws[..i + 1];
    IdOrder(prefix, After(draws[..i + 1]), draws[i].tail, After(draws[..j + 1]), draws[j].tail);
  }

  /** How far the ids can run ahead of the clock. */
  lemma {:induction false} BoundedLead(draws: seq<Draw>)
    ensures draws != [] ==> Rank(After(draws)) <= 4096 * LatestClock(draws) + 1023 + (|draws| - 1)
    ensures After(draws).lastMs <= LatestClock(draws) + |draws|
    ensures LatestClock(draws) <= After(draws).lastMs
  {
    if draws != [] {
      BoundedLead(draws[..|draws| - 1]);
    }
  }

  // --- the generator ------------------------------------------------------------

  class Generator {
    var lastMs: nat
    var counter: nat

    ghost function Here(): State
      reads this
    {
      State(lastMs, counter)
    }

    constructor ()
      ensures Here() == FRESH
    {
      lastMs, counter := 0, 0;
    }

    method TimestampAndCounter(now: int, start: seq<byte>) returns (ms: nat, place: nat)
      requires |start| == 2
      modifies this
      ensures Here() == Advance(old(Here()), now, CounterStart(start)) && Here() == State(ms, place)
    {
      if now > lastMs {
        lastMs := now;
        counter := (start[0] as int * 256 + start[1] as int) % 1024;
      } else if counter < COUNTER_MAX {
        counter := counter + 1;
      } else {
        lastMs := lastMs + 1;
        counter := 0;
      }
      ms, place := lastMs, counter;
    }

    /** Fills sixteen bytes in place. A timestamp past 48 bits cannot be written. */
    method NewId(prefix: string, draw: Draw) returns (id: Option<string>)
      requires Sound(Here())
      modifies this
      ensures Here() == Advance(old(Here()), draw.now, CounterStart(draw.start)) && Sound(Here())
      ensures id == if Here().lastMs < TIMESTAMP_LIMIT then Some(Id(prefix, Here(), draw.tail)) else None
    {
      var ms, place := TimestampAndCounter(draw.now, draw.start);
      if ms >= TIMESTAMP_LIMIT {
        return None;
      }
      var value := new byte[16];
      Fill(value, 0, BigEndian(ms, 6));
      Fill(value, 6, BigEndian(0x7000 + place, 2));
      Fill(value, 8, draw.tail);
      value[8] := value[8] % 64 + 128;
      assert value[..6] == BigEndian(ms, 6);
      assert value[6..8] == BigEndian(0x7000 + place, 2);
      assert value[9..] == draw.tail[1..];
      assert value[..] == value[..6] + value[6..8] + [value[8]] + value[9..];
      id := Some(prefix + "_" + HexOf(value[..]));
    }
  }

  method Fill(value: array<byte>, at: nat, bytes: seq<byte>)
    requires at + |bytes| <= value.Length
    modifies value
    ensures value[at..at + |bytes|] == bytes
    ensures forall k :: 0 <= k < value.Length && !(at <= k < at + |bytes|) ==> value[k] == old(value[k])
  {
    var i := 0;
    while i < |bytes|
      invariant 0 <= i <= |bytes|
      invariant value[at..at + i] == bytes[..i]
      invariant forall k :: 0 <= k < value.Length && !(at <= k < at + i) ==> value[k] == old(value[k])
    {
      value[at + i] := bytes[i];
      i := i + 1;
    }
  }

  /** The version and the variant are where the standard puts them. */
  lemma VersionAndVariant(s: State, tail: seq<byte>)
    requires Sound(s) && |tail| == 8
    ensures Value(s, tail)[6] / 16 == 7
    ensures Value(s, tail)[8] / 64 == 2
    ensures (Value(s, tail)[6] as int % 16) * 256 + Value(s, tail)[7] as int == s.counter
  {
    var v := 0x7000 + s.counter;
    assert BigEndian(v, 2) == BigEndian(v / 256, 1) + [v % 256];
    assert BigEndian(v / 256, 1) == BigEndian(v / 256 / 256, 0) + [v / 256 % 256] == [v / 256];
    assert Value(s, tail)[6] == v / 256 && Value(s, tail)[7] == v % 256;
  }
}
