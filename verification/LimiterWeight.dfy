/**
 The weight of the prior window: the share of its milliseconds that the trailing window
 still covers, and what that weight lets through.
 */
module LimiterWeight {
  import opened Base
  import opened Limiter
  import opened LimiterExact

  // ---- The fraction counts milliseconds --------------------------------------

  /** How many of the `n` milliseconds from `start` on lie in the trailing window of `size` milliseconds that ends at `now`. */
  function Covered(start: int, n: nat, now: int, size: int): nat {
    if n == 0 then 0
    else Covered(start, n - 1, now, size) + if now - size < start + n - 1 <= now then 1 else 0
  }

  lemma {:induction false} CoveredCount(start: int, n: nat, now: int, size: int)
    requires now >= start + n
    ensures Covered(start, n, now, size) == var left := start + n - 1 - (now - size); if left < 0 then 0 else if left > n then n else left
  {
    if n > 0 {
      CoveredCount(start, n - 1, now, size);
    }
  }

  /** Once its window has passed, a call weighs as much of a call as milliseconds of its window are still covered. */
  lemma FractionIsShareCovered(size: int, prior: Window, now: int)
    requires size > 0
    ensures now < prior.start + size ==> Fraction(size, prior, now) == 1.0
    ensures now >= prior.start + size ==> Fraction(size, prior, now) == Covered(prior.start, size, now, size) as real / size as real
  {
    if now >= prior.start + size {
      CoveredCount(prior.start, size, now, size);
      var left := prior.start + (size - 1) - (now - size);
      Shares(left, size);
    }
  }

  lemma WholeShares(y: real)
    requires y > 0.0
    ensures y / y == 1.0 && 0.0 / y == 0.0
  {
  }

  lemma NegativeShare(x: real, y: real)
    requires x < 0.0 && y > 0.0
    ensures x / y < 0.0
  {
  }

  lemma Shares(left: int, size: int)
    requires size > 0
    ensures Clamp(left as real / size as real) == (if left < 0 then 0 else if left > size then size else left) as real / size as real
  {
    WholeShares(size as real);
    if left < 0 {
      NegativeShare(left as real, size as real);
    } else if left > size {
      DividedInOrder(size, left, size);
    } else {
      DividedInOrder(0, left, size);
      DividedInOrder(left, size, size);
    }
  }

  /** How many of the milliseconds of the prior window count: all of them until it has passed. */
  function Counting(size: int, prior: Window, now: int): nat
    requires size > 0
  {
    if now < prior.start + size then size else Covered(prior.start, size, now, size)
  }

  /** Nothing before the first call; then the calls of the next window, and of each prior call the share still covered. */
  lemma TotalIsWeightedCount(size: int, w: Windows, now: int)
    requires size > 0
    ensures TotalCallsForTime(size, None, now) == 0.0
    ensures TotalCallsForTime(size, Some(w), now) == w.next.count as real + w.prior.count as real * (Counting(size, w.prior, now) as real / size as real)
  {
    FractionIsShareCovered(size, w.prior, now);
    WholeShares(size as real);
    assert Fraction(size, w.prior, now) == Counting(size, w.prior, now) as real / size as real;
  }

  // ---- Calls at one instant --------------------------------------------------

  /** Further calls of a limiter. */
  function RunMore(size: int, max: nat, run: Run, times: seq<int>): Run
    requires size > 0
  {
    if times == [] then run
    else RunStep(size, max, RunMore(size, max, run, times[..|times| - 1]), times[|times| - 1])
  }

  lemma {:induction false} RunAllThenMore(size: int, max: nat, a: seq<int>, b: seq<int>)
    requires size > 0
    ensures RunAll(size, max, a + b) == RunMore(size, max, RunAll(size, max, a), b)
  {
    if b == [] {
      assert a + b == a;
    } else {
      var n := |b| - 1;
      assert (a + b)[..|a + b| - 1] == a + b[..n] && (a + b)[|a + b| - 1] == b[n];
      RunAllThenMore(size, max, a, b[..n]);
    }
  }

  /** The windows are those of the instant: nothing is left to refresh or rotate. */
  predicate Current(size: int, w: Windows, now: int)
    requires size > 0
  {
    w.next.start == w.prior.start + size && Prepared(size, Some(w), now) == w
  }

  /** The window a call at that instant is counted in. */
  function WindowAt(w: Windows, now: int): int {
    if now < w.next.start then w.prior.start else w.next.start
  }

  lemma CountedStaysCurrent(size: int, w: Windows, now: int)
    requires size > 0 && Current(size, w, now)
    ensures Current(size, Counted(w, now), now) && WindowAt(Counted(w, now), now) == WindowAt(w, now)
    ensures TotalCalls(size, Counted(w, now), now) == TotalCalls(size, w, now) + 1.0
  {
    CountingAddsOne(size, w, now);
  }

  /**
   Of `n` calls at one instant, those are allowed that find the weighted total below the maximum, each one adding
   one to it: all of them, or as many as it takes to reach the maximum.
   */
  lemma {:induction false} CallsAtOneInstant(size: int, max: nat, w: Windows, log: seq<Booking>, now: int, n: nat) returns (allowed: nat)
    requires size > 0 && max > 0 && Sound(size, max, Some(w)) && Current(size, w, now)
    ensures allowed <= n && (allowed > 0 ==> TotalCalls(size, w, now) + (allowed - 1) as real < max as real)
    ensures allowed < n ==> TotalCalls(size, w, now) + allowed as real >= max as real
    ensures var after := RunMore(size, max, Run(Some(w), log), Burst(n, now));
            && after.log == log + Burst(allowed, Booking(now, WindowAt(w, now)))
            && after.windows.Some? && Sound(size, max, after.windows) && Current(size, after.windows.value, now)
            && WindowAt(after.windows.value, now) == WindowAt(w, now)
            && TotalCalls(size, after.windows.value, now) == TotalCalls(size, w, now) + allowed as real
  {
    if n == 0 {
      allowed := 0;
      assert log + Burst(0, Booking(now, WindowAt(w, now))) == log;
    } else {
      allowed := CallsAtOneInstant(size, max, w, log, now, n - 1);
      var before := RunMore(size, max, Run(Some(w), log), Burst(n - 1, now));
      assert Burst(n, now)[..n - 1] == Burst(n - 1, now);
      assert RunMore(size, max, Run(Some(w), log), Burst(n, now)) == RunStep(size, max, before, now);
      StepKeepsSound(size, max, before.windows, now);
      if Allows(size, max, before.windows, now) {
        CountedStaysCurrent(size, before.windows.value, now);
        BurstGrows(log, allowed + 1, Booking(now, WindowAt(w, now)));
        allowed := allowed + 1;
      } else {
        assert before.log + [] == before.log;
      }
    }
  }

  /** Half a window later, half of the calls of a full window have been forgotten. */
  lemma HalfAWindowLater(half: nat, max: nat)
    requires half > 0
    ensures var w := Windows(Window(0, max), Window(2 * half, 0));
            TotalCalls(2 * half, w, 3 * half) == max as real * ((half - 1) as real / (2 * half) as real)
  {
    var prior := Window(0, max);
    FractionIsShareCovered(2 * half, prior, 3 * half);
    CoveredCount(0, 2 * half, 3 * half, 2 * half);
  }
}
