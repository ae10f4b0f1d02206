/**
  The operation rate limit of the file guard: a counter that is reset when a minute has passed since
  the last reset, with the clock as an input.
 */
module RateLimits {

  /** The operations admitted between two resets of the counter. */
  datatype Window = Window(start: real, admitted: seq<real>)

  const MINUTE: real := 60.0

  /** How many of `times` lie in the half-open span from `a` to `b`. */
  function CountIn(times: seq<real>, a: real, b: real): nat {
    if times == [] then 0
    else CountIn(times[..|times| - 1], a, b) + if a <= times[|times| - 1] < b then 1 else 0
  }

  function TotalIn(ws: seq<Window>, a: real, b: real): nat {
    if ws == [] then 0 else TotalIn(ws[..|ws| - 1], a, b) + CountIn(ws[|ws| - 1].admitted, a, b)
  }

  /** Windows start at least a minute apart, each admits at most `max` operations, and only within
      a minute of its start. */
  ghost predicate History(ws: seq<Window>, max: int) {
    (forall i {:trigger WindowOk(ws[i], max)} :: 0 <= i < |ws| ==> WindowOk(ws[i], max)) &&
    forall i {:trigger Apart(ws, i)} :: 1 <= i < |ws| ==> Apart(ws, i)
  }

  ghost predicate WindowOk(w: Window, max: int) {
    (w.admitted == [] || |w.admitted| <= max) &&
    forall i :: 0 <= i < |w.admitted| ==> w.start <= w.admitted[i] < w.start + MINUTE
  }

  ghost predicate Apart(ws: seq<Window>, i: nat)
    requires 1 <= i < |ws|
  {
    ws[i - 1].start + MINUTE <= ws[i].start
  }

  /** How many windows start between `lo` and `hi`, both excluded. */
  function Hits(ws: seq<Window>, lo: real, hi: real): nat {
    if ws == [] then 0 else Hits(ws[..|ws| - 1], lo, hi) + if lo < ws[|ws| - 1].start < hi then 1 else 0
  }

  lemma HistoryPrefix(ws: seq<Window>, max: int)
    requires History(ws, max) && ws != []
    ensures History(ws[..|ws| - 1], max)
  {
    var init := ws[..|ws| - 1];
    forall i | 0 <= i < |init| ensures WindowOk(init[i], max) { assert WindowOk(ws[i], max); }
    forall i | 1 <= i < |init| ensures Apart(init, i) { assert Apart(ws, i); }
  }

  lemma {:induction false} HitsSpread(ws: seq<Window>, max: int, lo: real, hi: real)
    requires History(ws, max)
    ensures Hits(ws, lo, hi) >= 1 ==> (Hits(ws, lo, hi) - 1) as real * MINUTE < hi - lo
    ensures Hits(ws, lo, hi) >= 1 ==> (Hits(ws, lo, hi) - 1) as real * MINUTE < ws[|ws| - 1].start - lo
  {
    if ws != [] {
      HistoryPrefix(ws, max);
      HitsSpread(ws[..|ws| - 1], max, lo, hi);
      if |ws| >= 2 { assert Apart(ws, |ws| - 1); }
    }
  }

  /** A window holds operations of a span only if it starts less than a minute before it or inside. */
  lemma {:induction false} CountBound(times: seq<real>, start: real, a: real, b: real)
    requires forall i :: 0 <= i < |times| ==> start <= times[i] < start + MINUTE
    ensures CountIn(times, a, b) <= |times|
    ensures !(a - MINUTE < start < b) ==> CountIn(times, a, b) == 0
  {
    if times != [] {
      CountBound(times[..|times| - 1], start, a, b);
    }
  }

  lemma {:induction false} TotalBound(ws: seq<Window>, max: nat, a: real, b: real)
    requires History(ws, max)
    ensures TotalIn(ws, a, b) <= max * Hits(ws, a - MINUTE, b)
  {
    if ws != [] {
      var init, w := ws[..|ws| - 1], ws[|ws| - 1];
      HistoryPrefix(ws, max);
      TotalBound(init, max, a, b);
      assert WindowOk(w, max);
      CountBound(w.admitted, w.start, a, b);
      var h := Hits(init, a - MINUTE, b);
      assert max * (h + 1) == max * h + max;
    }
  }

  lemma Times(m: nat, a: nat, b: nat)
    requires a <= b
    ensures m * a <= m * b
  {
  }

  /** What one check does to the history. */
  function Serve(ws: seq<Window>, max: int, now: real): seq<Window>
    requires ws != []
  {
    var last := ws[|ws| - 1];
    if now - last.start >= MINUTE then ws + [Window(now, if max > 0 then [now] else [])]
    else if |last.admitted| >= max then ws
    else ws[..|ws| - 1] + [last.(admitted := last.admitted + [now])]
  }

  predicate Admits(ws: seq<Window>, max: int, now: real)
    requires ws != []
  {
    max > if now - ws[|ws| - 1].start >= MINUTE then 0 else |ws[|ws| - 1].admitted|
  }

  lemma ServeKeepsHistory(ws: seq<Window>, max: int, now: real)
    requires History(ws, max) && ws != [] && ws[|ws| - 1].start <= now
    ensures History(Serve(ws, max, now), max)
  {
    var next := Serve(ws, max, now);
    var n := |ws| - 1;
    assert WindowOk(ws[n], max);
    forall i | 0 <= i < |next| ensures WindowOk(next[i], max) {
      if i < |ws| { assert WindowOk(ws[i], max); }
    }
    forall i | 1 <= i < |next| ensures Apart(next, i) {
      if i < |ws| { assert Apart(ws, i); }
    }
  }

  /** All admitted operations, in order. */
  function Operations(ws: seq<Window>): seq<real> {
    if ws == [] then [] else Operations(ws[..|ws| - 1]) + ws[|ws| - 1].admitted
  }

  lemma {:induction false} CountConcat(s: seq<real>, t: seq<real>, a: real, b: real)
    ensures CountIn(s + t, a, b) == CountIn(s, a, b) + CountIn(t, a, b)
  {
    if t == [] {
      assert s + t == s;
    } else {
      CountConcat(s, t[..|t| - 1], a, b);
      assert (s + t)[..|s + t| - 1] == s + t[..|t| - 1];
    }
  }

  /** Counting window by window counts the admitted operations. */
  lemma {:induction false} TotalIsCount(ws: seq<Window>, a: real, b: real)
    ensures TotalIn(ws, a, b) == CountIn(Operations(ws), a, b)
  {
    if ws != [] {
      TotalIsCount(ws[..|ws| - 1], a, b);
      CountConcat(Operations(ws[..|ws| - 1]), ws[|ws| - 1].admitted, a, b);
    }
  }

  /** The history records exactly the operations that were admitted. */
  lemma ServeRecords(ws: seq<Window>, max: int, now: real)
    requires ws != []
    ensures Operations(Serve(ws, max, now)) == Operations(ws) + if Admits(ws, max, now) then [now] else []
  {
    var next := Serve(ws, max, now);
    if |next| > |ws| {
      assert next[..|ws|] == ws;
    } else {
      assert next[..|ws| - 1] == ws[..|ws| - 1];
    }
  }

  /** In any half-open span of at most `n` minutes at most `n + 1` times the limit is admitted; so
      at most twice the limit in any minute. */
  lemma SpanBound(ws: seq<Window>, max: nat, a: real, b: real, n: nat)
    requires History(ws, max) && b - a <= n as real * MINUTE
    ensures CountIn(Operations(ws), a, b) <= max * (n + 1)
  {
    TotalBound(ws, max, a, b);
    var h := Hits(ws, a - MINUTE, b);
    HitsSpread(ws, max, a - MINUTE, b);
    assert h <= n + 1 by {
      if h >= 1 {
        assert (h - 1) as real * MINUTE < n as real * MINUTE + MINUTE == (n + 1) as real * MINUTE;
      }
    }
    Times(max, h, n + 1);
    TotalIsCount(ws, a, b);
  }

  class RateLimiter {
    const max: int
    var operationsThisMinute: int
    var lastMinuteReset: real
    ghost var clock: real
    ghost var windows: seq<Window>

    ghost predicate Valid()
      reads this
    {
      && windows != [] && History(windows, max) && lastMinuteReset == windows[|windows| - 1].start
      && operationsThisMinute == |windows[|windows| - 1].admitted| && lastMinuteReset <= clock
    }

    constructor (max: int, now: real)
      ensures Valid() && windows == [Window(now, [])] && this.max == max && clock == now
    {
      this.max, operationsThisMinute, lastMinuteReset, clock := max, 0, now, now;
      windows := [Window(now, [])];
    }

    /** `_check_rate_limit`; it raises unless the operation is admitted. */
    method Check(now: real) returns (admitted: bool)
      requires Valid() && clock <= now
      modifies this
      ensures Valid() && clock == now
      ensures windows == Serve(old(windows), max, now)
      ensures Operations(windows) == old(Operations(windows)) + if admitted then [now] else []
    {
      ServeRecords(windows, max, now);
      ServeKeepsHistory(windows, max, now);
      windows, clock := Serve(windows, max, now), now;
      var elapsed := now - lastMinuteReset;
      if elapsed >= MINUTE {
        operationsThisMinute := 0;
        lastMinuteReset := now;
      }
      if operationsThisMinute >= max { return false; }
      operationsThisMinute := operationsThisMinute + 1;
      return true;
    }

    /** The bound on the admitted operations, for the limiter's whole life. */
    lemma AdmittedInSpan(a: real, b: real, n: nat)
      requires Valid() && max >= 0 && b - a <= n as real * MINUTE
      ensures CountIn(Operations(windows), a, b) <= max * (n + 1)
    {
      SpanBound(windows, max, a, b, n);
    }
  }

  /** The history after checks at all of `times`. */
  function ServeAll(ws: seq<Window>, max: int, times: seq<real>): (r: seq<Window>)
    requires ws != []
    ensures r != []
  {
    if times == [] then ws else Serve(ServeAll(ws, max, times[..|times| - 1]), max, times[|times| - 1])
  }

  function Repeat(t: real, n: nat): (r: seq<real>)
    ensures |r| == n
  {
    if n == 0 then [] else Repeat(t, n - 1) + [t]
  }

  lemma ServeLast(before: seq<Window>, w: Window, max: int, now: real)
    requires now < w.start + MINUTE && |w.admitted| < max
    ensures Serve(before + [w], max, now) == before + [w.(admitted := w.admitted + [now])]
  {
    assert (before + [w])[..|before|] == before;
  }

  /** `n` checks in the same instant, `n` at most the limit, fill one window. */
  lemma {:induction false} FillWindow(before: seq<Window>, start: real, max: nat, t: real, n: nat)
    requires n <= max && start <= t < start + MINUTE
    ensures ServeAll(before + [Window(start, [])], max, Repeat(t, n)) == before + [Window(start, Repeat(t, n))]
  {
    if n > 0 {
      FillWindow(before, start, max, t, n - 1);
      assert Repeat(t, n)[..n - 1] == Repeat(t, n - 1);
      ServeLast(before, Window(start, Repeat(t, n - 1)), max, t);
    }
  }

  lemma {:induction false} CountRepeat(t: real, n: nat, a: real, b: real)
    requires a <= t < b
    ensures CountIn(Repeat(t, n), a, b) == n
  {
    if n > 0 {
      CountRepeat(t, n - 1, a, b);
      var r := Repeat(t, n);
      assert r[..n - 1] == Repeat(t, n - 1) && r[n - 1] == t;
    }
  }

  lemma {:induction false} FillNext(ws: seq<Window>, max: nat, t: real, n: nat)
    requires ws != [] && 1 <= n <= max && ws[|ws| - 1].start + MINUTE <= t
    ensures ServeAll(ws, max, Repeat(t, n)) == ws + [Window(t, Repeat(t, n))]
  {
    assert Repeat(t, n)[..n - 1] == Repeat(t, n - 1);
    if n == 1 {
      assert Repeat(t, 0) == [];
    } else {
      FillNext(ws, max, t, n - 1);
      ServeLast(ws, Window(t, Repeat(t, n - 1)), max, t);
    }
  }

  /** The bound is reached within a second: a full window just before the minute is over and another
      one right after. */
  lemma TwiceTheLimitInASecond(max: nat, first: seq<Window>, all: seq<Window>)
    requires max > 0 && first == ServeAll([Window(0.0, [])], max, Repeat(59.5, max))
    requires all == ServeAll(first, max, Repeat(60.0, max))
    ensures CountIn(Operations(all), 59.5, 60.5) == 2 * max
  {
    assert [] + [Window(0.0, [])] == [Window(0.0, [])];
    FillWindow([], 0.0, max, 59.5, max);
    FillNext(first, max, 60.0, max);
    CountRepeat(59.5, max, 59.5, 60.5);
    CountRepeat(60.0, max, 59.5, 60.5);
    var w, u := Window(0.0, Repeat(59.5, max)), Window(60.0, Repeat(60.0, max));
    assert first == [w] && all == [w, u];
    assert all[..1] == first && first[..0] == [];
    assert TotalIn(first, 59.5, 60.5) == CountIn(w.admitted, 59.5, 60.5);
    TotalIsCount(all, 59.5, 60.5);
  }
}
