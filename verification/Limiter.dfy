/**
 The per-user mutation rate limiter:
 `crates/zero-cache-mutagen/src/sliding_window_limiter.rs`.

 The fraction of the prior window still covered is an exact real, and clock and counters
 are unbounded.
 */
module Limiter {
  import opened Base

  datatype Window = Window(start: int, count: nat)

  datatype Windows = Windows(prior: Window, next: Window)

  // ---- One call --------------------------------------------------------------

  function NewWindows(size: int, now: int): Windows
    requires size > 0
  {
    var start := now - now % size;
    Windows(Window(start, 0), Window(start + size, 0))
  }

  function Clamp(x: real): real {
    if x < 0.0 then 0.0 else if x > 1.0 then 1.0 else x
  }

  /** The portion of the prior window that the trailing window still covers. */
  function Fraction(size: int, prior: Window, now: int): (f: real)
    requires size > 0
    ensures 0.0 <= f <= 1.0
  {
    if now < prior.start + size then 1.0
    else Clamp((prior.start + (size - 1) - (now - size)) as real / size as real)
  }

  function TotalCalls(size: int, w: Windows, now: int): real
    requires size > 0
  {
    w.prior.count as real * Fraction(size, w.prior, now) + w.next.count as real
  }

  function TotalCallsForTime(size: int, windows: Option<Windows>, now: int): real
    requires size > 0
  {
    match windows
    case Some(w) => TotalCalls(size, w, now)
    case None => 0.0
  }

  /** Fresh windows after a long idle period. */
  function Refreshed(size: int, windows: Option<Windows>, now: int): Windows
    requires size > 0
  {
    if windows.None? || now - size > windows.value.next.start + size then NewWindows(size, now) else windows.value
  }

  function Rotated(size: int, w: Windows, now: int): Windows {
    if now - size >= w.next.start then Windows(w.next, Window(w.next.start + size, 0)) else w
  }

  function Prepared(size: int, windows: Option<Windows>, now: int): Windows
    requires size > 0
  {
    Rotated(size, Refreshed(size, windows, now), now)
  }

  function Allows(size: int, max: nat, windows: Option<Windows>, now: int): bool
    requires size > 0
  {
    TotalCalls(size, Prepared(size, windows, now), now) < max as real
  }

  function Counted(w: Windows, now: int): Windows {
    if now < w.next.start then w.(prior := w.prior.(count := w.prior.count + 1))
    else w.(next := w.next.(count := w.next.count + 1))
  }

  function Step(size: int, max: nat, windows: Option<Windows>, now: int): Windows
    requires size > 0
  {
    var w := Prepared(size, windows, now);
    if Allows(size, max, windows, now) then Counted(w, now) else w
  }

  class SlidingWindowLimiter {
    const size: int
    const max: nat
    var windows: Option<Windows>

    constructor (size: int, max: nat)
      requires size > 0
      ensures this.size == size && this.max == max && windows == None
    {
      this.size, this.max, windows := size, max, None;
    }

    method CanDo(now: int) returns (allowed: bool)
      requires size > 0
      modifies this
      ensures allowed == Allows(size, max, old(windows), now)
      ensures windows == Some(Step(size, max, old(windows), now))
    {
      var prior, next;
      if windows.Some? {
        prior, next := windows.value.prior, windows.value.next;
      } else {
        var created := NewWindows(size, now);
        prior, next := created.prior, created.next;
      }
      if now - size > next.start + size {
        var created := NewWindows(size, now);
        prior, next := created.prior, created.next;
      }
      if now - size >= next.start {
        prior := next;
        next := Window(prior.start + size, 0);
      }
      allowed := TotalCalls(size, Windows(prior, next), now) < max as real;
      if allowed {
        if now < next.start {
          prior := prior.(count := prior.count + 1);
        } else {
          next := next.(count := next.count + 1);
        }
      }
      windows := Some(Windows(prior, next));
    }
  }

  // ---- Any clock -------------------------------------------------------------

  /** What every call keeps, whatever the clock does: adjacent windows, neither over the maximum. */
  predicate Sound(size: int, max: nat, windows: Option<Windows>) {
    windows.Some? ==>
      var w := windows.value;
      w.next.start == w.prior.start + size && w.prior.count <= max && w.next.count <= max
  }

  lemma PortionOf(count: nat, f: real)
    requires 0.0 <= f <= 1.0
    ensures 0.0 <= count as real * f <= count as real
    ensures f < 1.0 && count > 0 ==> count as real * f < count as real
  {
  }

  lemma StepKeepsSound(size: int, max: nat, windows: Option<Windows>, now: int)
    requires size > 0 && Sound(size, max, windows)
    ensures Sound(size, max, Some(Step(size, max, windows, now)))
  {
    var w := Prepared(size, windows, now);
    PortionOf(w.prior.count, Fraction(size, w.prior, now));
  }

  lemma FractionFalls(size: int, prior: Window, now: int)
    requires size > 0 && now >= prior.start + size
    ensures Fraction(size, prior, now) < 1.0
  {
    var x := prior.start + (size - 1) - (now - size);
    assert x < size;
    DividedBelow(x, size);
  }

  lemma DividedBelow(x: int, size: int)
    requires size > 0 && x < size
    ensures x as real / size as real < 1.0
  {
    assert x as real < size as real;
  }

  /** With an empty next window and a prior one that has begun to leave the trailing window, there is room. */
  lemma RoomAfterPrior(size: int, max: nat, w: Windows, now: int)
    requires size > 0 && max > 0 && w.prior.count <= max && w.next.count == 0
    requires w.prior.count == 0 || now >= w.prior.start + size
    ensures TotalCalls(size, w, now) < max as real
  {
    var f := Fraction(size, w.prior, now);
    PortionOf(w.prior.count, f);
    if w.prior.count > 0 {
      FractionFalls(size, w.prior, now);
    }
  }

  /** Windows that were just created or rotated leave room for the call. */
  lemma MovedWindowsAllow(size: int, max: nat, windows: Option<Windows>, now: int)
    requires size > 0 && max > 0 && Sound(size, max, windows) && Some(Prepared(size, windows, now)) != windows
    ensures Allows(size, max, windows, now)
  {
    RoomAfterPrior(size, max, Prepared(size, windows, now), now);
  }

  /** A denied call leaves the limiter exactly as it was. */
  lemma DenialChangesNothing(size: int, max: nat, windows: Option<Windows>, now: int)
    requires size > 0 && max > 0 && Sound(size, max, windows) && !Allows(size, max, windows, now)
    ensures Some(Step(size, max, windows, now)) == windows
  {
    if Some(Prepared(size, windows, now)) != windows {
      MovedWindowsAllow(size, max, windows, now);
    }
  }

  lemma MaxZeroDeniesAll(size: int, windows: Option<Windows>, now: int)
    requires size > 0
    ensures !Allows(size, 0, windows, now)
  {
    var w := Prepared(size, windows, now);
    PortionOf(w.prior.count, Fraction(size, w.prior, now));
  }

  // ---- A clock that does not run backwards ------------------------------------

  /** An allowed call: when it was made and the start of the window it was counted in. */
  datatype Booking = Booking(time: int, window: int)

  datatype Run = Run(windows: Option<Windows>, log: seq<Booking>)

  function RunStep(size: int, max: nat, run: Run, now: int): Run
    requires size > 0
  {
    var w := Prepared(size, run.windows, now);
    Run(Some(Step(size, max, run.windows, now)),
        run.log + if Allows(size, max, run.windows, now) then [Booking(now, if now < w.next.start then w.prior.start else w.next.start)] else [])
  }

  /** The state of a new limiter after calls at the given times, with the log of the allowed ones. */
  function RunAll(size: int, max: nat, times: seq<int>): Run
    requires size > 0
  {
    if times == [] then Run(None, [])
    else RunStep(size, max, RunAll(size, max, times[..|times| - 1]), times[|times| - 1])
  }

  predicate NonDecreasing(times: seq<int>) {
    forall i, j | 0 <= i < j < |times| :: times[i] <= times[j]
  }

  function CountIn(log: seq<Booking>, window: int): nat {
    if log == [] then 0
    else CountIn(log[..|log| - 1], window) + if log[|log| - 1].window == window then 1 else 0
  }

  /** The allowed calls of an interval of `size` consecutive milliseconds. */
  function CountFrom(log: seq<Booking>, from: int, size: int): nat {
    if log == [] then 0
    else CountFrom(log[..|log| - 1], from, size) + if from <= log[|log| - 1].time < from + size then 1 else 0
  }

  ghost predicate Aligned(start: int, size: int) {
    exists k: int :: start == k * size
  }

  /** A call is counted in an aligned window that reaches it; the right end is included. */
  ghost predicate WellBooked(b: Booking, size: int) {
    b.window <= b.time <= b.window + size && Aligned(b.window, size)
  }

  /** What every call keeps on such a clock, with the time of the last call. */
  ghost predicate Inv(size: int, max: nat, w: Windows, log: seq<Booking>, last: int) {
    && Sound(size, max, Some(w)) && Aligned(w.prior.start, size)
    && w.prior.start <= last <= w.next.start + size
    && w.prior.count == CountIn(log, w.prior.start) && w.next.count == CountIn(log, w.next.start)
    && (w.next.count > 0 ==> w.next.start <= last)
    && (forall i | 0 <= i < |log| :: WellBooked(log[i], size) && log[i].window <= w.next.start)
    && (forall s: int :: CountIn(log, s) <= max)
  }

  lemma NextAligned(start: int, size: int)
    requires Aligned(start, size)
    ensures Aligned(start + size, size)
  {
    var k: int :| start == k * size;
    assert start + size == (k + 1) * size;
  }

  lemma StartAligned(now: int, size: int)
    requires size > 0
    ensures Aligned(now - now % size, size)
  {
    assert now - now % size == (now / size) * size;
  }

  lemma {:induction false} NoneAbove(log: seq<Booking>, s: int)
    requires forall i | 0 <= i < |log| :: log[i].window < s
    ensures CountIn(log, s) == 0
  {
    if log != [] {
      NoneAbove(log[..|log| - 1], s);
    }
  }

  /** Before the call is counted. */
  lemma PreparedKeepsInv(size: int, max: nat, w: Windows, log: seq<Booking>, last: int, now: int)
    requires size > 0 && Inv(size, max, w, log, last) && last <= now
    ensures Inv(size, max, Prepared(size, Some(w), now), log, now)
  {
    var created := Refreshed(size, Some(w), now);
    var p := Prepared(size, Some(w), now);
    if now - size > w.next.start + size {
      StartAligned(now, size);
      NoneAbove(log, p.prior.start);
      NoneAbove(log, p.next.start);
    } else if now - size >= w.next.start {
      NextAligned(w.prior.start, size);
      NoneAbove(log, p.next.start);
    }
  }

  lemma FreshInv(size: int, max: nat, now: int)
    requires size > 0
    ensures Inv(size, max, Prepared(size, None, now), [], now)
  {
    StartAligned(now, size);
  }

  lemma CountOne(log: seq<Booking>, b: Booking, s: int)
    ensures CountIn(log + [b], s) == CountIn(log, s) + if b.window == s then 1 else 0
  {
    assert (log + [b])[..|log|] == log;
  }

  lemma CountedKeepsInv(size: int, max: nat, w: Windows, log: seq<Booking>, now: int)
    requires size > 0 && Inv(size, max, w, log, now) && TotalCalls(size, w, now) < max as real
    ensures Inv(size, max, Counted(w, now), log + [Booking(now, if now < w.next.start then w.prior.start else w.next.start)], now)
  {
    var b := Booking(now, if now < w.next.start then w.prior.start else w.next.start);
    PortionOf(w.prior.count, Fraction(size, w.prior, now));
    NextAligned(w.prior.start, size);
    forall s: int ensures CountIn(log + [b], s) == CountIn(log, s) + if b.window == s then 1 else 0 {
      CountOne(log, b, s);
    }
    assert forall i | 0 <= i < |log| :: (log + [b])[i] == log[i];
  }

  lemma StepKeepsInv(size: int, max: nat, run: Run, last: int, now: int)
    requires size > 0 && last <= now
    requires if run.windows.Some? then Inv(size, max, run.windows.value, run.log, last) else run.log == []
    ensures var next := RunStep(size, max, run, now);
            next.windows.Some? && Inv(size, max, next.windows.value, next.log, now)
  {
    if run.windows.Some? {
      PreparedKeepsInv(size, max, run.windows.value, run.log, last, now);
    } else {
      FreshInv(size, max, now);
    }
    var w := Prepared(size, run.windows, now);
    if Allows(size, max, run.windows, now) {
      CountedKeepsInv(size, max, w, run.log, now);
    } else {
      assert run.log + [] == run.log;
    }
  }

  lemma {:induction false} RunsKeepInv(size: int, max: nat, times: seq<int>)
    requires size > 0 && NonDecreasing(times)
    ensures var run := RunAll(size, max, times);
            if times == [] then run == Run(None, [])
            else run.windows.Some? && Inv(size, max, run.windows.value, run.log, times[|times| - 1])
  {
    if times != [] {
      var before, now := times[..|times| - 1], times[|times| - 1];
      RunsKeepInv(size, max, before);
      var last := if before == [] then now else before[|before| - 1];
      assert last <= now;
      StepKeepsInv(size, max, RunAll(size, max, before), last, now);
    }
  }

  // ---- At most twice the maximum ---------------------------------------------

  lemma {:induction false} CountedInTwo(log: seq<Booking>, from: int, size: int, first: int)
    requires forall i | 0 <= i < |log| :: from <= log[i].time < from + size ==> log[i].window == first || log[i].window == first + size
    requires size > 0
    ensures CountFrom(log, from, size) <= CountIn(log, first) + CountIn(log, first + size)
  {
    if log != [] {
      var rest := log[..|log| - 1];
      assert forall i | 0 <= i < |rest| :: rest[i] == log[i];
      CountedInTwo(rest, from, size, first);
    }
  }

  lemma Scaled(a: int, b: int, size: int)
    requires size > 0
    ensures a <= b <==> a * size <= b * size
  {
  }

  lemma MultiplesBetween(k: int, h: int, size: int)
    requires size > 0 && (h - 2) * size < k * size < (h + 1) * size
    ensures k == h || k == h - 1
  {
    Scaled(h + 1, k, size);
    Scaled(k, h - 2, size);
  }

  /** Any `size` consecutive milliseconds meet at most two of the windows. */
  lemma TwoWindows(from: int, size: int) returns (first: int)
    requires size > 0
    ensures forall b: Booking | WellBooked(b, size) && from <= b.time < from + size :: b.window == first || b.window == first + size
  {
    var to := from + size - 1;
    var h := to / size;
    first := (h - 1) * size;
    assert h * size <= to < (h + 1) * size;
    forall b: Booking | WellBooked(b, size) && from <= b.time < from + size
      ensures b.window == first || b.window == first + size
    {
      var k: int :| b.window == k * size;
      assert (h - 2) * size == h * size - 2 * size;
      assert (h - 2) * size < k * size < (h + 1) * size;
      MultiplesBetween(k, h, size);
    }
  }

  /** Any interval of `size` consecutive milliseconds holds at most twice the maximum of allowed calls. */
  lemma AtMostTwiceTheMaximum(size: int, max: nat, times: seq<int>, from: int)
    requires size > 0 && NonDecreasing(times)
    ensures CountFrom(RunAll(size, max, times).log, from, size) <= 2 * max
  {
    RunsKeepInv(size, max, times);
    var log := RunAll(size, max, times).log;
    if times != [] {
      var first := TwoWindows(from, size);
      CountedInTwo(log, from, size, first);
    }
  }

  // ---- The weighted total ----------------------------------------------------

  lemma FractionDecreases(size: int, prior: Window, now: int, later: int)
    requires size > 0 && now <= later
    ensures Fraction(size, prior, later) <= Fraction(size, prior, now)
  {
    var x, y := prior.start + (size - 1) - (now - size), prior.start + (size - 1) - (later - size);
    DividedInOrder(y, x, size);
  }

  lemma DividedInOrder(y: int, x: int, size: int)
    requires size > 0 && y <= x
    ensures y as real / size as real <= x as real / size as real
  {
  }

  lemma Portions(count: nat, f: real, g: real)
    requires f <= g
    ensures count as real * f <= count as real * g
  {
  }

  lemma TotalDecreases(size: int, w: Windows, now: int, later: int)
    requires size > 0 && now <= later
    ensures TotalCalls(size, w, later) <= TotalCalls(size, w, now)
  {
    FractionDecreases(size, w.prior, now, later);
    Portions(w.prior.count, Fraction(size, w.prior, later), Fraction(size, w.prior, now));
  }

  lemma TotalBounds(size: int, w: Windows, now: int)
    requires size > 0
    ensures w.next.count as real <= TotalCalls(size, w, now) <= w.prior.count as real + w.next.count as real
  {
    PortionOf(w.prior.count, Fraction(size, w.prior, now));
  }

  /** Moving the windows does not raise the total. */
  lemma MovingLowersTotal(size: int, w: Windows, now: int)
    requires size > 0
    ensures TotalCalls(size, Prepared(size, Some(w), now), now) <= TotalCalls(size, w, now)
  {
    TotalBounds(size, w, now);
    TotalBounds(size, Prepared(size, Some(w), now), now);
  }

  lemma CountingAddsOne(size: int, w: Windows, now: int)
    requires size > 0 && w.next.start == w.prior.start + size
    ensures TotalCalls(size, Counted(w, now), now) == TotalCalls(size, w, now) + 1.0
  {
  }

  lemma {:induction false} RunTotalBelow(size: int, max: nat, times: seq<int>, now: int)
    requires size > 0 && NonDecreasing(times) && (times == [] || times[|times| - 1] <= now)
    ensures TotalCallsForTime(size, RunAll(size, max, times).windows, now) < max as real + 1.0
  {
    if times != [] {
      var before, last := times[..|times| - 1], times[|times| - 1];
      var run := RunAll(size, max, before);
      RunTotalBelow(size, max, before, last);
      RunsKeepInv(size, max, before);
      var w := Prepared(size, run.windows, last);
      if run.windows.Some? {
        MovingLowersTotal(size, run.windows.value, last);
      }
      if Allows(size, max, run.windows, last) {
        CountingAddsOne(size, w, last);
      }
      TotalDecreases(size, Step(size, max, run.windows, last), last, now);
    }
  }

  // ---- Denials ---------------------------------------------------------------

  /** Only denials: the calls at these times, after the others, are all refused. */
  predicate AllDenied(size: int, max: nat, times: seq<int>, denials: seq<int>)
    requires size > 0
  {
    forall i | 0 <= i < |denials| :: !Allows(size, max, RunAll(size, max, times + denials[..i]).windows, denials[i])
  }

  lemma {:induction false} RunsAreSound(size: int, max: nat, times: seq<int>)
    requires size > 0
    ensures Sound(size, max, RunAll(size, max, times).windows)
  {
    if times != [] {
      RunsAreSound(size, max, times[..|times| - 1]);
      StepKeepsSound(size, max, RunAll(size, max, times[..|times| - 1]).windows, times[|times| - 1]);
    }
  }

  lemma DeniedStep(size: int, max: nat, run: Run, now: int)
    requires size > 0 && max > 0 && Sound(size, max, run.windows) && !Allows(size, max, run.windows, now)
    ensures RunStep(size, max, run, now) == run
  {
    DenialChangesNothing(size, max, run.windows, now);
    assert run.log + [] == run.log;
  }

  lemma RunLast(size: int, max: nat, times: seq<int>, now: int)
    requires size > 0
    ensures RunAll(size, max, times + [now]) == RunStep(size, max, RunAll(size, max, times), now)
  {
    assert (times + [now])[..|times|] == times;
  }

  lemma EarlierDenied(size: int, max: nat, times: seq<int>, denials: seq<int>)
    requires size > 0 && denials != [] && AllDenied(size, max, times, denials)
    ensures AllDenied(size, max, times, denials[..|denials| - 1])
  {
    var before := denials[..|denials| - 1];
    forall i | 0 <= i < |before| ensures !Allows(size, max, RunAll(size, max, times + before[..i]).windows, before[i]) {
      assert before[..i] == denials[..i] && before[i] == denials[i];
    }
  }

  lemma Regroup(times: seq<int>, more: seq<int>)
    requires more != []
    ensures times + more == (times + more[..|more| - 1]) + [more[|more| - 1]]
  {
  }

  /** However many calls are denied, on any clock, the limiter stays as it was. */
  lemma {:induction false} DenialsChangeNothing(size: int, max: nat, times: seq<int>, denials: seq<int>)
    requires size > 0 && max > 0 && AllDenied(size, max, times, denials)
    ensures RunAll(size, max, times + denials) == RunAll(size, max, times)
  {
    if denials == [] {
      assert times + denials == times;
    } else {
      var n := |denials| - 1;
      var before, now := denials[..n], denials[n];
      EarlierDenied(size, max, times, denials);
      DenialsChangeNothing(size, max, times, before);
      RunsAreSound(size, max, times);
      DeniedStep(size, max, RunAll(size, max, times), now);
      RunLast(size, max, times + before, now);
      Regroup(times, denials);
    }
  }

  /** Once a whole window has passed since a denial, with only denials since, a call is allowed. */
  lemma AllowedAWindowAfterDenial(size: int, max: nat, times: seq<int>, denials: seq<int>, now: int)
    requires size > 0 && max > 0 && denials != [] && NonDecreasing(times + denials) && AllDenied(size, max, times, denials)
    requires denials[0] + size <= now
    ensures Allows(size, max, RunAll(size, max, times + denials).windows, now)
  {
    DenialsChangeNothing(size, max, times, denials);
    assert times + denials[..0] == times;
    assert forall i | 0 <= i < |times| :: (times + denials)[i] == times[i];
    assert (times + denials)[|times|] == denials[0];
    RunsKeepInv(size, max, times);
    var windows := RunAll(size, max, times).windows;
    if Some(Prepared(size, windows, now)) != windows {
      MovedWindowsAllow(size, max, windows, now);
    } else {
      DenialChangesNothing(size, max, windows, denials[0]);
      RoomAfterPrior(size, max, windows.value, now);
    }
  }
}
