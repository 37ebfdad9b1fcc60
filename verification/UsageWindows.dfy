/**
 Asking for a Session's usage in windows the Analytics API accepts, and adding
 the answers up. Times are microseconds.
 */
module UsageWindows {
  const WIDTH: int := 30 * 24 * 60 * 60 * 1_000_000

  datatype Window = Window(start: int, end: int)

  /** Windows end to end over an interval, each of them full but the last, and
      that one not empty. */
  ghost predicate Tiles(windows: seq<Window>, start: int, end: int) {
    if windows == [] then start == end
    else
      var last := windows[|windows| - 1];
      && last.end == end
      && last.start < end <= last.start + WIDTH
      && (|windows| > 1 ==> windows[|windows| - 2].end == windows[|windows| - 2].start + WIDTH)
      && Tiles(windows[..|windows| - 1], start, last.start)
  }

  function Opening(start: int, end: int): int {
    if start == end then end - 1 else start
  }

  /** Widths in this length, rounded up. */
  function Needed(length: int): int {
    (length + WIDTH - 1) / WIDTH
  }

  method Windows(start: int, end: int) returns (windows: seq<Window>)
    ensures start > end ==> windows == []
    ensures start <= end ==> windows != [] && Tiles(windows, if start == end then end - 1 else start, end)
  {
    var opening := start;
    if start == end {
      opening := end - 1;
    }
    windows := [];
    var cursor := opening;
    while cursor < end
      invariant start <= end ==> cursor <= end && Tiles(windows, opening, cursor)
      invariant start > end ==> windows == [] && cursor == opening
      invariant windows != [] && cursor < end ==> windows[|windows| - 1].end == windows[|windows| - 1].start + WIDTH
      invariant windows == [] ==> cursor == opening
      decreases end - cursor
    {
      var boundary := if cursor + WIDTH < end then cursor + WIDTH else end;
      assert (windows + [Window(cursor, boundary)])[..|windows|] == windows;
      windows := windows + [Window(cursor, boundary)];
      cursor := boundary;
    }
  }

  // --- what tiling means -------------------------------------------------------------

  /** No window is empty, too long or outside the interval, and each one starts
      where the one before it ends. */
  lemma {:induction false} TilesMeet(windows: seq<Window>, start: int, end: int)
    requires Tiles(windows, start, end)
    ensures start <= end
    ensures forall i :: 0 <= i < |windows| ==> start <= windows[i].start < windows[i].end <= end
    ensures forall i :: 0 <= i < |windows| ==> windows[i].end - windows[i].start <= 2_592_000_000_000
    ensures forall i :: 0 < i < |windows| ==> windows[i].start == windows[i - 1].end
    ensures windows != [] ==> windows[0].start == start && windows[|windows| - 1].end == end
    decreases |windows|
  {
    if windows != [] {
      var n := |windows| - 1;
      TilesMeet(windows[..n], start, windows[n].start);
    }
  }

  predicate Holds(w: Window, t: int) {
    w.start <= t < w.end
  }

  /** Every moment of the interval is in exactly one window. */
  lemma {:induction false} TilesPartition(windows: seq<Window>, start: int, end: int, t: int) returns (k: nat)
    requires Tiles(windows, start, end) && start <= t < end
    ensures k < |windows|
    ensures forall i :: 0 <= i < |windows| ==> (Holds(windows[i], t) <==> i == k)
    decreases |windows|
  {
    var n := |windows| - 1;
    var front := windows[..n];
    TilesMeet(front, start, windows[n].start);
    if t < windows[n].start {
      k := TilesPartition(front, start, windows[n].start, t);
      assert forall i :: 0 <= i < n ==> windows[i] == front[i];
    } else {
      k := n;
      assert forall i :: 0 <= i < n ==> windows[i] == front[i];
    }
  }

  /** Windows start a whole number of widths after the first. */
  lemma {:induction false} StartsAt(windows: seq<Window>, start: int, end: int, i: nat)
    requires Tiles(windows, start, end) && i < |windows|
    ensures windows[i].start == start + i * WIDTH
    decreases |windows|
  {
    var n := |windows| - 1;
    if i < n {
      StartsAt(windows[..n], start, windows[n].start, i);
    } else if n > 0 {
      StartsAt(windows[..n], start, windows[n].start, n - 1);
    }
  }

  /** As many windows as whole widths in the interval, rounded up. */
  lemma TilesCount(windows: seq<Window>, start: int, end: int)
    requires Tiles(windows, start, end)
    ensures |windows| == Needed(end - start)
  {
    if windows != [] {
      var n := |windows| - 1;
      StartsAt(windows, start, end, n);
      var rest := end - start - n * WIDTH;
      assert 0 < rest <= WIDTH;
      assert end - start + WIDTH - 1 == (n + 1) * WIDTH + (rest - 1);
    }
  }

  // --- adding the answers up -----------------------------------------------------------

  /** What a provider reports over a range: two ranges that meet report what
      the one range does and, over again, what happened where they meet. */
  ghost predicate Measures(usage: (int, int) -> real, at: int -> real) {
    forall a, b, c :: Meets(usage, at, a, b, c)
  }

  ghost predicate Meets(usage: (int, int) -> real, at: int -> real, a: int, b: int, c: int) {
    a <= b <= c ==> usage(a, b) + usage(b, c) == usage(a, c) + at(b)
  }

  /** What happened on the first `n` boundaries after the start. */
  ghost function OnBoundaries(from: int, n: nat, at: int -> real): real {
    if n == 0 then 0.0 else OnBoundaries(from, n - 1, at) + at(from + n * WIDTH)
  }

  lemma OneMoreWindow(usage: (int, int) -> real, at: int -> real, windows: seq<Window>, from: int, end: int, i: nat)
    requires Measures(usage, at) && Tiles(windows, from, end) && i < |windows|
    ensures i == 0 ==> windows[i].start == from && OnBoundaries(from, 0, at) == 0.0
    ensures i > 0 ==>
              usage(from, windows[i - 1].end) + OnBoundaries(from, i - 1, at) + usage(windows[i].start, windows[i].end)
              == usage(from, windows[i].end) + OnBoundaries(from, i, at)
  {
    TilesMeet(windows, from, end);
    StartsAt(windows, from, end, i);
    if i > 0 {
      assert Meets(usage, at, from, windows[i].start, windows[i].end);
    }
  }

  method SessionUsage(usage: (int, int) -> real, ghost at: int -> real, started: int, observed: int) returns (total: real)
    requires Measures(usage, at)
    ensures var from := Opening(if started < observed then started else observed, observed);
            && Needed(observed - from) > 0
            && total == usage(from, observed) + OnBoundaries(from, Needed(observed - from) - 1, at)
  {
    var first := if started < observed then started else observed;
    var windows := Windows(first, observed);
    ghost var from := Opening(first, observed);
    TilesCount(windows, from, observed);
    total := 0.0;
    var i := 0;
    while i < |windows|
      invariant 0 <= i <= |windows|
      invariant i == 0 ==> total == 0.0
      invariant i > 0 ==> total == usage(from, windows[i - 1].end) + OnBoundaries(from, i - 1, at)
    {
      OneMoreWindow(usage, at, windows, from, observed, i);
      total := total + usage(windows[i].start, windows[i].end);
      i := i + 1;
    }
    TilesMeet(windows, from, observed);
  }

  // --- two providers ----------------------------------------------------------------------

  datatype Charge = Charge(time: int, cost: real)

  function Between(charges: seq<Charge>, start: int, end: int, closed: bool): real {
    if charges == [] then 0.0
    else
      var c := charges[0];
      if start <= c.time && (c.time < end || (closed && c.time == end)) then
        c.cost + Between(charges[1..], start, end, closed)
      else Between(charges[1..], start, end, closed)
  }

  function At(charges: seq<Charge>, time: int): real {
    if charges == [] then 0.0
    else if charges[0].time == time then charges[0].cost + At(charges[1..], time)
    else At(charges[1..], time)
  }

  lemma {:induction false} RangesMeet(charges: seq<Charge>, a: int, b: int, c: int, closed: bool)
    requires a <= b <= c
    ensures Between(charges, a, b, closed) + Between(charges, b, c, closed)
         == Between(charges, a, c, closed) + if closed then At(charges, b) else 0.0
    decreases |charges|
  {
    if charges != [] {
      RangesMeet(charges[1..], a, b, c, closed);
    }
  }

  lemma {:induction false} NothingTwice(from: int, n: nat, at: int -> real)
    requires forall t :: at(t) == 0.0
    ensures OnBoundaries(from, n, at) == 0.0
    decreases n
  {
    if n > 0 {
      NothingTwice(from, n - 1, at);
    }
  }

  /** A provider whose ranges leave their end out is added up exactly; one whose
      ranges hold both ends counts again what was charged on a boundary. */
  lemma ProvidersMeasure(charges: seq<Charge>)
    ensures Measures((a, b) => Between(charges, a, b, false), _ => 0.0)
    ensures Measures((a, b) => Between(charges, a, b, true), b => At(charges, b))
  {
    var open, shut := (a, b) => Between(charges, a, b, false), (a, b) => Between(charges, a, b, true);
    var never, on := _ => 0.0, b => At(charges, b);
    forall a, b, c
      ensures Meets(open, never, a, b, c) && Meets(shut, on, a, b, c)
    {
      if a <= b <= c {
        RangesMeet(charges, a, b, c, false);
        RangesMeet(charges, a, b, c, true);
      }
    }
  }
}
