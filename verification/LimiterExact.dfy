/**
 How far the rate limiter is from what it is documented to do: exactly when a call is
 counted outside its own period, and exactly how many calls a trailing window can hold.
 */
module LimiterExact {
  import opened Base
  import opened Limiter

  // ---- A call and the period it is counted in --------------------------------

  /**
   On any clock, a call is counted at the closed right end of a period exactly when it comes two
   windows after the next one began, and outside its own half-open period only then or when the
   clock has run back behind both windows.
   */
  lemma CountedInItsPeriodExactly(size: int, max: nat, run: Run, now: int)
    requires size > 0 && Sound(size, max, run.windows) && Allows(size, max, run.windows, now)
    ensures var log := RunStep(size, max, run, now).log;
            var b := log[|log| - 1];
            && b.time == now
            && (b.window + size == now <==> run.windows.Some? && now == run.windows.value.next.start + 2 * size)
            && (b.window <= now < b.window + size
                <==> (run.windows.Some? ==> now >= run.windows.value.prior.start && now != run.windows.value.next.start + 2 * size))
  {
  }

  /** For every window size, a call after an idle gap is counted in a period that has just ended. */
  lemma CountedAfterItsPeriod(size: int, max: nat)
    requires size > 0 && max > 0
    ensures RunAll(size, max, [0, 3 * size]).log == [Booking(0, 0), Booking(3 * size, 2 * size)]
  {
    FirstCall(size, max);
    assert [0, 3 * size] == [0] + [3 * size];
    RunLast(size, max, [0], 3 * size);
    RoomAfterPrior(size, max, Windows(Window(size, 0), Window(2 * size, 0)), 3 * size);
  }

  lemma FirstCall(size: int, max: nat)
    requires size > 0 && max > 0
    ensures RunAll(size, max, [0]) == Run(Some(Windows(Window(0, 1), Window(size, 0))), [Booking(0, 0)])
  {
    assert [0] == [] + [0];
    RunLast(size, max, [], 0);
    RoomAfterPrior(size, max, Prepared(size, None, 0), 0);
  }

  // ---- The most calls a trailing window can hold -----------------------------

  /** The most allowed calls in any `size` consecutive milliseconds. */
  function Peak(size: int, max: nat): int
    requires size > 0
  {
    if max == 0 then 0 else if size == 1 then max + 1 else 2 * max - max / size
  }

  lemma DividedIsLess(n: nat, size: int)
    requires size >= 2 && n > 0
    ensures 0 <= n / size < n
  {
    var q := n / size;
    assert n == q * size + n % size;
    AtLeastTwice(q, size);
  }

  lemma AtLeastTwice(q: int, size: int)
    requires size >= 2
    ensures q >= 0 ==> q * size >= 2 * q
    ensures q < 0 ==> q * size <= -size
  {
    if q >= 0 {
      Scaled(0, q, size - 1);
    } else {
      Scaled(q, -1, size);
    }
  }

  /** What is left of a count after dividing it off grows with the count. */
  lemma RemainderGrows(a: nat, b: nat, size: int)
    requires size > 0 && a <= b
    ensures a - a / size <= b - b / size
  {
    var q, q', d := a / size, b / size, b - a;
    assert a == q * size + a % size && b == q' * size + b % size;
    if q' - q > d {
      Scaled(d + 1, q' - q, size);
      assert (q' - q) * size == q' * size - q * size;
      assert (d + 1) * size == d * size + size;
      Scaled(0, d, size);
      assert d * size >= d by { TimesAtLeast(d, size); }
    }
  }

  lemma TimesAtLeast(d: nat, size: int)
    requires size > 0
    ensures d * size >= d
  {
  }

  lemma PeakBounds(size: int, max: nat)
    requires size > 0
    ensures Peak(size, max) <= 2 * max
    ensures Peak(size, max) <= max <==> max == 0
    ensures Peak(size, max) == 2 * max <==> max < size || max == 1
    ensures max > 0 ==> Peak(size, max) >= max + 1
  {
    if max > 0 && size >= 2 {
      DividedIsLess(max, size);
      if max >= size {
        assert max / size >= 1;
      }
    }
  }

  // ---- What every call keeps -------------------------------------------------

  /** `Inv`, with the rest of what decides how close bookings can be. */
  ghost predicate Tight(size: int, max: nat, w: Windows, log: seq<Booking>, last: int) {
    && Inv(size, max, w, log, last)
    && (forall i | 0 <= i < |log| :: log[i].time <= last)
    && (last < w.next.start ==> forall i | 0 <= i < |log| :: log[i].window == w.prior.start || log[i].time + size < last)
    && AloneAtTheEnd(size, log)
  }

  /** A call counted at the closed end of a window is the only one counted in it. */
  ghost predicate AloneAtTheEnd(size: int, log: seq<Booking>) {
    forall i | 0 <= i < |log| && log[i].time == log[i].window + size :: CountIn(log, log[i].window) == 1
  }

  lemma {:induction false} CountedOnce(log: seq<Booking>, i: nat)
    requires i < |log|
    ensures CountIn(log, log[i].window) >= 1
  {
    if i < |log| - 1 {
      CountedOnce(log[..|log| - 1], i);
    }
  }

  /** Only windows that were just rotated can be asked for a call at the end of the next one. */
  lemma EndIsEmpty(size: int, w: Windows, now: int)
    requires size > 0
    ensures var p := Prepared(size, Some(w), now); now >= p.next.start + size ==> p.next.count == 0
  {
  }

  lemma PreparedKeepsTight(size: int, max: nat, w: Windows, log: seq<Booking>, last: int, now: int)
    requires size > 0 && Tight(size, max, w, log, last) && last <= now
    ensures Tight(size, max, Prepared(size, Some(w), now), log, now)
  {
    PreparedKeepsInv(size, max, w, log, last, now);
    assert forall i | 0 <= i < |log| :: WellBooked(log[i], size);
  }

  lemma CountedKeepsTight(size: int, max: nat, w: Windows, log: seq<Booking>, now: int)
    requires size > 0 && Tight(size, max, w, log, now) && TotalCalls(size, w, now) < max as real
    requires now >= w.next.start + size ==> w.next.count == 0
    ensures Tight(size, max, Counted(w, now), log + [Booking(now, if now < w.next.start then w.prior.start else w.next.start)], now)
  {
    var b := Booking(now, if now < w.next.start then w.prior.start else w.next.start);
    CountedKeepsInv(size, max, w, log, now);
    assert forall i | 0 <= i < |log| :: (log + [b])[i] == log[i];
    forall i | 0 <= i <= |log| && (log + [b])[i].time == (log + [b])[i].window + size
      ensures CountIn(log + [b], (log + [b])[i].window) == 1
    {
      CountOne(log, b, (log + [b])[i].window);
      if i < |log| {
        CountedOnce(log, i);
      }
    }
  }

  // ---- One more call ---------------------------------------------------------

  lemma CountFromOne(log: seq<Booking>, b: Booking, from: int, size: int)
    ensures CountFrom(log + [b], from, size) == CountFrom(log, from, size) + if from <= b.time < from + size then 1 else 0
  {
    assert (log + [b])[..|log|] == log;
  }

  lemma {:induction false} CountedInOne(log: seq<Booking>, from: int, size: int, window: int)
    requires forall i | 0 <= i < |log| :: from <= log[i].time < from + size ==> log[i].window == window
    ensures CountFrom(log, from, size) <= CountIn(log, window)
  {
    if log != [] {
      var rest := log[..|log| - 1];
      assert forall i | 0 <= i < |rest| :: rest[i] == log[i];
      CountedInOne(rest, from, size, window);
    }
  }

  /** A portion of at least one in `size` of the prior window, in whole numbers. */
  lemma TotalInWholeNumbers(size: int, max: nat, w: Windows, now: int)
    requires size > 0 && w.prior.start + size <= now <= w.prior.start + 2 * size - 2
    requires TotalCalls(size, w, now) < max as real
    ensures w.prior.count + w.next.count * size < max * size
  {
    var x := w.prior.start + (size - 1) - (now - size);
    var s, f := size as real, Fraction(size, w.prior, now);
    OneOver(s);
    assert f == x as real / s by {
      DividedBelow(x, size);
    }
    assert f >= 1.0 / s by {
      DividedInOrder(1, x, size);
    }
    Portions(w.prior.count, 1.0 / s, f);
    ClearDenominator(w.prior.count as real, w.next.count as real, max as real, s);
  }

  lemma OneOver(d: real)
    requires d >= 1.0
    ensures 0.0 < 1.0 / d <= 1.0 && d * (1.0 / d) == 1.0
  {
  }

  lemma ClearDenominator(a: real, b: real, m: real, s: real)
    requires s >= 1.0
    ensures a * (1.0 / s) + b < m <==> a + b * s < m * s
  {
    var u := 1.0 / s;
    OneOver(s);
    assert (a * u + b) * s == a * (u * s) + b * s;
    assert u * s == 1.0;
    ScaledReal(a * u + b, m, s);
  }

  lemma ScaledReal(t: real, m: real, s: real)
    requires s > 0.0
    ensures t < m <==> t * s < m * s
  {
  }

  /** Calls in both windows, the last of which was still allowed. */
  lemma SumBelowPeak(size: int, max: nat, a: nat, b: nat)
    requires size >= 2 && a <= max && max > 0 && a + b * size < max * size
    ensures a + b + 1 <= Peak(size, max)
  {
    var q := a / size;
    assert a == q * size + a % size;
    assert b + q < max by {
      assert (b + q) * size == b * size + q * size;
      Scaled(max, b + q, size);
    }
    RemainderGrows(a, max, size);
  }

  /** The windows that calls of a trailing window at `now` can have been counted in. */
  lemma RecentWindows(size: int, max: nat, w: Windows, log: seq<Booking>, now: int, i: nat)
    requires size > 0 && Inv(size, max, w, log, now) && now >= w.next.start && i < |log| && log[i].time > now - size
    ensures log[i].window == w.prior.start || log[i].window == w.next.start
  {
    assert WellBooked(log[i], size);
    var k: int :| log[i].window == k * size;
    var h: int :| w.prior.start == h * size;
    assert w.next.start == (h + 1) * size && w.prior.start - size == (h - 1) * size;
    assert (h + 1 - 2) * size == (h - 1) * size && (h + 1 + 1) * size == w.next.start + size;
    MultiplesBetween(k, h + 1, size);
  }

  /** The trailing window of an allowed call stays within the peak: the call is counted in the next window. */
  lemma CallInNextWindow(size: int, max: nat, w: Windows, log: seq<Booking>, now: int, from: int)
    requires size > 0 && Tight(size, max, w, log, now) && TotalCalls(size, w, now) < max as real
    requires now >= w.next.start && from <= now < from + size
    ensures CountFrom(log, from, size) + 1 <= Peak(size, max)
  {
    var first := w.prior.start;
    TotalBounds(size, w, now);
    PeakBounds(size, max);
    forall i | 0 <= i < |log| && from <= log[i].time < from + size ensures log[i].window == first || log[i].window == first + size {
      RecentWindows(size, max, w, log, now, i);
    }
    CountedInTwo(log, from, size, first);
    if i :| 0 <= i < |log| && from <= log[i].time < from + size && log[i].window == first {
      assert WellBooked(log[i], size);
      if log[i].time < first + size {
        TotalInWholeNumbers(size, max, w, now);
        SumBelowPeak(size, max, w.prior.count, w.next.count);
      } else {
        assert CountIn(log, log[i].window) == 1;
      }
    } else {
      CountedInOne(log, from, size, w.next.start);
    }
  }

  lemma CallInPriorWindow(size: int, max: nat, w: Windows, log: seq<Booking>, now: int, from: int)
    requires size > 0 && Tight(size, max, w, log, now) && TotalCalls(size, w, now) < max as real
    requires now < w.next.start && from <= now < from + size
    ensures CountFrom(log, from, size) + 1 <= Peak(size, max)
  {
    assert Fraction(size, w.prior, now) == 1.0;
    PeakBounds(size, max);
    CountedInOne(log, from, size, w.prior.start);
  }

  /** The log after one more call, with what it keeps. */
  ghost predicate Within(size: int, max: nat, run: Run, last: int)
    requires size > 0
  {
    && (if run.windows.Some? then Tight(size, max, run.windows.value, run.log, last) else run.log == [])
    && forall from: int :: CountFrom(run.log, from, size) <= Peak(size, max)
  }

  lemma PreparedTight(size: int, max: nat, run: Run, last: int, now: int)
    requires size > 0 && last <= now && Within(size, max, run, last)
    ensures var w := Prepared(size, run.windows, now);
            Tight(size, max, w, run.log, now) && (now >= w.next.start + size ==> w.next.count == 0)
  {
    if run.windows.Some? {
      PreparedKeepsTight(size, max, run.windows.value, run.log, last, now);
      EndIsEmpty(size, run.windows.value, now);
    } else {
      FreshInv(size, max, now);
    }
  }

  lemma StepStaysWithin(size: int, max: nat, run: Run, last: int, now: int)
    requires size > 0 && last <= now && Within(size, max, run, last)
    ensures Within(size, max, RunStep(size, max, run, now), now) && RunStep(size, max, run, now).windows.Some?
  {
    var w := Prepared(size, run.windows, now);
    PreparedTight(size, max, run, last, now);
    if Allows(size, max, run.windows, now) {
      var b := Booking(now, if now < w.next.start then w.prior.start else w.next.start);
      CountedKeepsTight(size, max, w, run.log, now);
      forall from: int ensures CountFrom(run.log + [b], from, size) <= Peak(size, max) {
        CountFromOne(run.log, b, from, size);
        if from <= now < from + size {
          if now < w.next.start {
            CallInPriorWindow(size, max, w, run.log, now, from);
          } else {
            CallInNextWindow(size, max, w, run.log, now, from);
          }
        }
      }
    } else {
      assert run.log + [] == run.log;
    }
  }

  lemma {:induction false} RunsStayWithin(size: int, max: nat, times: seq<int>)
    requires size > 0 && NonDecreasing(times)
    ensures Within(size, max, RunAll(size, max, times), if times == [] then 0 else times[|times| - 1])
    ensures times != [] ==> RunAll(size, max, times).windows.Some?
  {
    if times == [] {
      PeakBounds(size, max);
    } else {
      var before, now := times[..|times| - 1], times[|times| - 1];
      RunsStayWithin(size, max, before);
      var last := if before == [] then now else before[|before| - 1];
      assert last <= now;
      StepStaysWithin(size, max, RunAll(size, max, before), last, now);
    }
  }

  // ---- The peak is reached ---------------------------------------------------

  function Burst<T>(n: nat, x: T): seq<T> {
    seq(n, i => x)
  }

  lemma BurstGrows<T>(a: seq<T>, n: nat, x: T)
    requires n > 0
    ensures a + Burst(n, x) == (a + Burst(n - 1, x)) + [x]
  {
  }

  function AfterFirst(size: int, n: nat): Option<Windows> {
    if n == 0 then None else Some(Windows(Window(0, n), Window(size, 0)))
  }

  lemma FirstBurstStep(size: int, max: nat, n: nat, log: seq<Booking>)
    requires size > 0 && n < max
    ensures RunStep(size, max, Run(AfterFirst(size, n), log), size - 1) == Run(AfterFirst(size, n + 1), log + [Booking(size - 1, 0)])
  {
    assert (size - 1) % size == size - 1;
    var w := Windows(Window(0, n), Window(size, 0));
    assert Prepared(size, AfterFirst(size, n), size - 1) == w;
    assert Fraction(size, w.prior, size - 1) == 1.0;
  }

  lemma {:induction false} FirstBurst(size: int, max: nat, n: nat)
    requires size > 0 && n <= max
    ensures RunAll(size, max, [] + Burst(n, size - 1)) == Run(AfterFirst(size, n), [] + Burst(n, Booking(size - 1, 0)))
  {
    if n > 0 {
      FirstBurst(size, max, n - 1);
      BurstGrows([], n, size - 1);
      BurstGrows([], n, Booking(size - 1, 0));
      FirstBurstStep(size, max, n - 1, [] + Burst(n - 1, Booking(size - 1, 0)));
      RunLast(size, max, [] + Burst(n - 1, size - 1), size - 1);
    }
  }

  lemma StillRoom(size: int, max: nat, m: nat)
    requires size >= 2 && m < max - max / size
    ensures max + m * size < max * size
  {
    var q := max / size;
    assert max == q * size + max % size;
    Scaled(m + q + 1, max, size);
    assert (m + q + 1) * size == m * size + q * size + size;
  }

  /** Just before the prior window is forgotten, one in `size` of its calls still weighs. */
  lemma LateTotal(size: int, max: nat, m: nat)
    requires size >= 2 && m < max - max / size
    ensures TotalCalls(size, Windows(Window(0, max), Window(size, m)), 2 * size - 2) < max as real
  {
    OneOver(size as real);
    assert Fraction(size, Window(0, max), 2 * size - 2) == 1.0 / size as real;
    StillRoom(size, max, m);
    ClearDenominator(max as real, m as real, max as real, size as real);
  }

  lemma SecondBurstStep(size: int, max: nat, m: nat, log: seq<Booking>)
    requires size >= 2 && m < max - max / size
    ensures RunStep(size, max, Run(Some(Windows(Window(0, max), Window(size, m))), log), 2 * size - 2)
         == Run(Some(Windows(Window(0, max), Window(size, m + 1))), log + [Booking(2 * size - 2, size)])
  {
    var w := Windows(Window(0, max), Window(size, m));
    assert Prepared(size, Some(w), 2 * size - 2) == w;
    LateTotal(size, max, m);
  }

  lemma {:induction false} SecondBurst(size: int, max: nat, m: nat)
    requires size >= 2 && max > 0 && m <= max - max / size
    ensures RunAll(size, max, Burst(max, size - 1) + Burst(m, 2 * size - 2))
         == Run(Some(Windows(Window(0, max), Window(size, m))), Burst(max, Booking(size - 1, 0)) + Burst(m, Booking(2 * size - 2, size)))
  {
    var times, log := Burst(max, size - 1), Burst(max, Booking(size - 1, 0));
    if m == 0 {
      FirstBurst(size, max, max);
      assert [] + times == times + Burst(0, 2 * size - 2);
      assert [] + log == log + Burst(0, Booking(2 * size - 2, size));
    } else {
      SecondBurst(size, max, m - 1);
      BurstGrows(times, m, 2 * size - 2);
      BurstGrows(log, m, Booking(2 * size - 2, size));
      SecondBurstStep(size, max, m - 1, log + Burst(m - 1, Booking(2 * size - 2, size)));
      RunLast(size, max, times + Burst(m - 1, 2 * size - 2), 2 * size - 2);
    }
  }

  /** With windows of one millisecond: the call counted at a closed end, and then a full window in the same millisecond. */
  lemma {:induction false} ClosedEndBurst(max: nat, m: nat)
    requires max > 0 && m <= max
    ensures RunAll(1, max, [0, 3] + Burst(m, 3)) == Run(Some(AfterClosedEnd(m)), [Booking(0, 0), Booking(3, 2)] + Burst(m, Booking(3, 3)))
  {
    var times, log := [0, 3], [Booking(0, 0), Booking(3, 2)];
    if m == 0 {
      assert times + Burst(0, 3) == [0] + [3];
      assert log + Burst(0, Booking(3, 3)) == [Booking(0, 0)] + [Booking(3, 2)];
      FirstCall(1, max);
      RunLast(1, max, [0], 3);
      ClosedEndStep(max, [Booking(0, 0)]);
    } else {
      ClosedEndBurst(max, m - 1);
      BurstGrows(times, m, 3);
      BurstGrows(log, m, Booking(3, 3));
      ClosedEndBurstStep(max, m - 1, log + Burst(m - 1, Booking(3, 3)));
      RunLast(1, max, times + Burst(m - 1, 3), 3);
    }
  }

  function AfterClosedEnd(m: nat): Windows {
    if m == 0 then Windows(Window(1, 0), Window(2, 1)) else Windows(Window(2, 1), Window(3, m))
  }

  lemma ClosedEndStep(max: nat, log: seq<Booking>)
    requires max > 0
    ensures RunStep(1, max, Run(Some(Windows(Window(0, 1), Window(1, 0))), log), 3) == Run(Some(AfterClosedEnd(0)), log + [Booking(3, 2)])
  {
    RoomAfterPrior(1, max, Windows(Window(1, 0), Window(2, 0)), 3);
  }

  lemma ClosedEndBurstStep(max: nat, m: nat, log: seq<Booking>)
    requires m < max
    ensures RunStep(1, max, Run(Some(AfterClosedEnd(m)), log), 3) == Run(Some(AfterClosedEnd(m + 1)), log + [Booking(3, 3)])
  {
    var w := Windows(Window(2, 1), Window(3, m));
    assert Prepared(1, Some(AfterClosedEnd(m)), 3) == w;
    assert Fraction(1, w.prior, 3) == 0.0;
  }

  lemma {:induction false} CountOfConcat(a: seq<Booking>, b: seq<Booking>, from: int, size: int)
    requires forall i | 0 <= i < |b| :: from <= b[i].time < from + size
    ensures CountFrom(a + b, from, size) == CountFrom(a, from, size) + |b|
  {
    if b == [] {
      assert a + b == a;
    } else {
      var rest := b[..|b| - 1];
      CountOfConcat(a, rest, from, size);
      assert a + b == (a + rest) + [b[|b| - 1]];
      CountFromOne(a + rest, b[|b| - 1], from, size);
    }
  }

  lemma PeakOfOne(max: nat)
    requires max > 0
    ensures CountFrom(RunAll(1, max, [0, 3] + Burst(max, 3)).log, 3, 1) == max + 1
  {
    var late := [Booking(3, 2)] + Burst(max, Booking(3, 3));
    ClosedEndBurst(max, max);
    assert [Booking(0, 0), Booking(3, 2)] + Burst(max, Booking(3, 3)) == [Booking(0, 0)] + late;
    CountOfConcat([Booking(0, 0)], late, 3, 1);
    CountFromOne([], Booking(0, 0), 3, 1);
    assert [] + [Booking(0, 0)] == [Booking(0, 0)];
  }

  lemma PeakOfTwoBursts(size: int, max: nat, m: nat)
    requires size >= 2 && max > 0 && m == max - max / size
    ensures CountFrom(RunAll(size, max, Burst(max, size - 1) + Burst(m, 2 * size - 2)).log, size - 1, size) == max + m
  {
    var log := Burst(max, Booking(size - 1, 0)) + Burst(m, Booking(2 * size - 2, size));
    SecondBurst(size, max, m);
    CountOfConcat([], log, size - 1, size);
    assert [] + log == log;
  }

  /** A run whose busiest trailing window holds exactly the peak. */
  lemma PeakIsReached(size: int, max: nat) returns (times: seq<int>, from: int)
    requires size > 0
    ensures NonDecreasing(times) && CountFrom(RunAll(size, max, times).log, from, size) == Peak(size, max)
  {
    if max == 0 {
      times, from := [], 0;
    } else if size == 1 {
      times, from := [0, 3] + Burst(max, 3), 3;
      PeakOfOne(max);
    } else {
      DividedIsLess(max, size);
      var m := max - max / size;
      times, from := Burst(max, size - 1) + Burst(m, 2 * size - 2), size - 1;
      PeakOfTwoBursts(size, max, m);
    }
  }

  // ---- What the documentation promises ---------------------------------------

  /** No trailing window of any run on a clock that does not run backwards holds more than `n` allowed calls. */
  ghost predicate NeverMoreThan(size: int, max: nat, n: int)
    requires size > 0
  {
    forall times: seq<int>, from: int | NonDecreasing(times) :: CountFrom(RunAll(size, max, times).log, from, size) <= n
  }

  /** The peak is the least such bound. */
  lemma PeakIsExact(size: int, max: nat, n: int)
    requires size > 0
    ensures NeverMoreThan(size, max, n) <==> Peak(size, max) <= n
  {
    if NeverMoreThan(size, max, n) {
      var times, from := PeakIsReached(size, max);
    } else {
      var times: seq<int>, from: int :| NonDecreasing(times) && CountFrom(RunAll(size, max, times).log, from, size) > n;
      RunsStayWithin(size, max, times);
    }
  }

  /** The documented limit is kept exactly by limiters that allow nothing. */
  lemma LimitIsKeptExactly(size: int, max: nat)
    requires size > 0
    ensures NeverMoreThan(size, max, max) <==> max == 0
  {
    PeakIsExact(size, max, max);
    PeakBounds(size, max);
  }

  /** Twice the maximum does happen, exactly for maxima below the window size and for one. */
  lemma TwiceTheMaximumIsAttained(size: int, max: nat)
    requires size > 0
    ensures NeverMoreThan(size, max, 2 * max)
    ensures NeverMoreThan(size, max, 2 * max - 1) <==> !(max < size || max == 1)
  {
    PeakIsExact(size, max, 2 * max);
    PeakIsExact(size, max, 2 * max - 1);
    PeakBounds(size, max);
  }
}
