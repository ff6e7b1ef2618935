/** Cron occurrences as the scheduler sees them, and the search for the latest one.

    Instants are nanoseconds since the zero `time.Time`, so 0 is the zero time that
    the code uses for "none". A cron expression is any set of whole minutes. */
module Occurrences {

  const SECOND := 1_000_000_000
  const MINUTE := 60_000_000_000

  function Truncate(t: int): int { t - t % MINUTE }

  ghost predicate WholeMinutes(occurrences: iset<int>) {
    forall o :: o in occurrences ==> o > 0 && o % MINUTE == 0
  }

  /** `n` is the least occurrence after `t`, or 0 when there is none. */
  ghost predicate IsNextAfter(occurrences: iset<int>, t: int, n: int) {
    if n == 0 then forall o :: o in occurrences ==> o <= t
    else n in occurrences && n > t && forall o :: o in occurrences && o > t ==> n <= o
  }

  ghost predicate IsNext(occurrences: iset<int>, next: int -> int) {
    WholeMinutes(occurrences) && forall t :: IsNextAfter(occurrences, t, next(t))
  }

  // ---- the number of halvings ---------------------------------------------

  /** floor(log2(n)) + 1 for n >= 1. */
  function Bits(n: nat): nat {
    if n == 0 then 0 else 1 + Bits(n / 2)
  }

  function Power2(k: nat): nat {
    if k == 0 then 1 else 2 * Power2(k - 1)
  }

  lemma {:induction false} BitsIsLog(n: nat)
    requires n >= 1
    ensures Bits(n) >= 1 && Power2(Bits(n) - 1) <= n < Power2(Bits(n))
  {
    if n > 1 {
      BitsIsLog(n / 2);
    } else {
      assert Bits(1) == 1 + Bits(0) && Power2(1) == 2 * Power2(0);
    }
  }

  lemma {:induction false} BitsMonotone(m: nat, n: nat)
    requires m <= n
    ensures Bits(m) <= Bits(n)
  {
    if m > 0 {
      BitsMonotone(m / 2, n / 2);
    }
  }

  // ---- the latest occurrence in a window ------------------------------------

  datatype Search = Invalid | NotFound | Found(at: int)

  ghost predicate IsLatest(occurrences: iset<int>, start: int, end: int, r: Search) {
    match r
    case Invalid => false
    case NotFound => forall o :: o in occurrences ==> !(start <= o <= end)
    case Found(at) => at in occurrences && start <= at <= end && forall o :: o in occurrences && o <= end ==> o <= at
  }

  /** How many whole minutes the window holds, less one; negative when it holds none. */
  function Minutes(start: int, end: int): int {
    (Truncate(end) - LowerMinute(start)) / MINUTE
  }

  function LowerMinute(start: int): int {
    if Truncate(start) < start then Truncate(start) + MINUTE else Truncate(start)
  }

  ghost predicate SomeFrom(occurrences: iset<int>, c: int, end: int) {
    exists o :: o in occurrences && c <= o <= end
  }

  ghost predicate NoneFrom(occurrences: iset<int>, c: int, end: int) {
    forall o :: o in occurrences && o <= end ==> o < c
  }

  /** One evaluation of the expression just before a minute tells whether an
      occurrence lies between that minute and the end. */
  lemma ProbeMeans(occurrences: iset<int>, next: int -> int, c: int, end: int)
    requires IsNext(occurrences, next)
    ensures var n := next(c - 1);
            if n == 0 || n > end then NoneFrom(occurrences, c, end)
            else SomeFrom(occurrences, c, end) && n >= c && n == Truncate(n)
  {
    assert IsNextAfter(occurrences, c - 1, next(c - 1));
  }

  /** When minute c is the last one with an occurrence from it on, that occurrence is at c. */
  lemma LastProbe(occurrences: iset<int>, next: int -> int, start: int, c: int, end: int)
    requires IsNext(occurrences, next) && start <= c && c % MINUTE == 0
    requires SomeFrom(occurrences, c, end) && NoneFrom(occurrences, c + MINUTE, end)
    ensures next(c - 1) == c && IsLatest(occurrences, start, end, Found(next(c - 1)))
  {
    ProbeMeans(occurrences, next, c, end);
    assert IsNextAfter(occurrences, c - 1, next(c - 1));
  }

  lemma EmptyWindow(occurrences: iset<int>, start: int, end: int)
    requires WholeMinutes(occurrences) && NoneFrom(occurrences, LowerMinute(start), end)
    ensures IsLatest(occurrences, start, end, NotFound)
  {
  }

  lemma Halving(low: int, high: int, middle: int, calls: nat, bound: int)
    requires 0 <= low <= high && middle == low + (high - low) / 2
    requires calls + Bits(high - low + 1) <= bound
    ensures calls + 1 + Bits(middle - low) <= bound
    ensures calls + 1 + Bits(high - middle) <= bound
  {
    BitsMonotone(middle - low, (high - low + 1) / 2);
    BitsMonotone(high - middle, (high - low + 1) / 2);
  }

  lemma WindowMinutes(start: int, end: int)
    ensures start <= LowerMinute(start) < start + MINUTE && LowerMinute(start) % MINUTE == 0
    ensures Truncate(end) <= end < Truncate(end) + MINUTE
    ensures LowerMinute(start) + Minutes(start, end) * MINUTE == Truncate(end)
    ensures LowerMinute(start) <= Truncate(end) <==> Minutes(start, end) >= 0
  {
  }

  lemma MinuteGrid(lower: int, k: int)
    requires lower % MINUTE == 0
    ensures (lower + k * MINUTE) % MINUTE == 0
  {
  }

  /** The loop of the search: the last minute from which an occurrence is left. */
  method LastMinute(next: int -> int, lower: int, minutes: nat, end: int, ghost occurrences: iset<int>)
    returns (valid: bool, best: int, calls: nat)
    requires end < lower + (minutes + 1) * MINUTE
    ensures calls <= Bits(minutes + 1)
    ensures valid ==> -1 <= best <= minutes
    ensures IsNext(occurrences, next) ==>
              && valid
              && NoneFrom(occurrences, lower + (best + 1) * MINUTE, end)
              && (best >= 0 ==> SomeFrom(occurrences, lower + best * MINUTE, end))
  {
    ghost var sound := IsNext(occurrences, next);
    var low, high := 0, minutes;
    best, calls := -1, 0;
    while low <= high
      invariant 0 <= low <= high + 1 <= minutes + 1
      invariant best == low - 1
      invariant sound && best >= 0 ==> SomeFrom(occurrences, lower + best * MINUTE, end)
      invariant sound ==> NoneFrom(occurrences, lower + (high + 1) * MINUTE, end)
      invariant calls + Bits(high - low + 1) <= Bits(minutes + 1)
      decreases high - low
    {
      var middle := low + (high - low) / 2;
      var candidate := lower + middle * MINUTE;
      var occurrence := next(candidate - 1);
      Halving(low, high, middle, calls, Bits(minutes + 1));
      calls := calls + 1;
      if sound {
        ProbeMeans(occurrences, next, candidate, end);
      }
      if occurrence == 0 {
        high := middle - 1;
        continue;
      }
      if occurrence < candidate || occurrence != Truncate(occurrence) {
        return false, best, calls;
      }
      if occurrence > end {
        high := middle - 1;
        continue;
      }
      best := middle;
      low := middle + 1;
    }
    valid := true;
  }

  /** The binary search over the minutes of the window. `next` may be any function;
      when it really is the successor of a set of whole minutes, the search cannot
      fail and finds the greatest occurrence of the window exactly when there is one. */
  method LatestOccurrence(next: int -> int, start: int, end: int, ghost occurrences: iset<int>) returns (r: Search, calls: nat)
    ensures start == 0 || end == 0 || start > end ==> r == Invalid
    ensures IsNext(occurrences, next) && start != 0 && end != 0 && start <= end ==> IsLatest(occurrences, start, end, r)
    ensures r.Found? ==> start <= r.at <= end
    ensures calls <= if start <= end && Minutes(start, end) >= 0 then Bits(Minutes(start, end) + 1) + 1 else 0
  {
    if start == 0 || end == 0 || start > end {
      return Invalid, 0;
    }
    var lower, upper := LowerMinute(start), Truncate(end);
    WindowMinutes(start, end);
    if lower > upper {
      return NotFound, 0;
    }
    var minutes := Minutes(start, end);
    var valid, best, probes := LastMinute(next, lower, minutes, end, occurrences);
    calls := probes;
    if !valid {
      return Invalid, calls;
    }
    if best < 0 {
      if IsNext(occurrences, next) {
        EmptyWindow(occurrences, start, end);
      }
      return NotFound, calls;
    }
    var candidate := lower + best * MINUTE;
    var occurrence := next(candidate - 1);
    calls := calls + 1;
    MinuteGrid(lower, best);
    if IsNext(occurrences, next) {
      LastProbe(occurrences, next, start, candidate, end);
    }
    if occurrence == 0 || occurrence < start || occurrence > end || occurrence < candidate || occurrence != Truncate(occurrence) {
      return Invalid, calls;
    }
    r := Found(occurrence);
  }

  // ---- a search bounded to five years, repeated ------------------------------

  /** Local years: `yearStart(y)` is the instant of the first of January of y. */
  ghost predicate Calendar(yearOf: int -> int, yearStart: int -> int) {
    && (forall t :: yearStart(yearOf(t)) <= t < yearStart(yearOf(t) + 1))
    && (forall y, z :: y < z ==> yearStart(y) < yearStart(z))
    && (forall y :: yearStart(y) % SECOND == 0)
  }

  function UpcomingSecond(t: int): int { t + SECOND - t % SECOND }

  /** What the cron library promises of one call: the least occurrence after t, given
      up for when it lies beyond the fifth year after that of the upcoming second. */
  ghost predicate BoundedNext(occurrences: iset<int>, yearOf: int -> int, t: int, n: int) {
    if n != 0 then IsNextAfter(occurrences, t, n)
    else forall o :: o in occurrences && o > t ==> yearOf(o) > yearOf(UpcomingSecond(t)) + 5
  }

  lemma StartOrder(yearOf: int -> int, yearStart: int -> int, t: int, year: int)
    requires Calendar(yearOf, yearStart)
    ensures yearOf(t) >= year <==> t >= yearStart(year)
  {
    var y := yearOf(t);
    assert yearStart(y) <= t < yearStart(y + 1);
    assert y > year ==> yearStart(year) < yearStart(y);
    assert y + 1 < year ==> yearStart(y + 1) < yearStart(year);
  }

  /** An occurrence is a whole second, so one after the probe is not before the year. */
  lemma ProbeSkipsNothing(o: int, start: int)
    requires o % MINUTE == 0 && start % SECOND == 0 && o > start - SECOND
    ensures o >= start
  {
    assert o == 60 * (o / MINUTE) * SECOND;
  }

  lemma SecondBefore(start: int)
    requires start % SECOND == 0
    ensures UpcomingSecond(start - SECOND) == start
  {
  }

  /** A probe one second before a year begins searches that year and the next five. */
  lemma ProbeYear(occurrences: iset<int>, yearOf: int -> int, yearStart: int -> int, bounded: int -> int, after: int, year: int)
    requires Calendar(yearOf, yearStart) && WholeMinutes(occurrences) && yearOf(after) < year
    requires forall o :: o in occurrences && o > after ==> yearOf(o) >= year
    requires forall t :: BoundedNext(occurrences, yearOf, t, bounded(t))
    ensures var n := bounded(yearStart(year) - SECOND);
            if n != 0 then n > after && IsNextAfter(occurrences, after, n)
            else forall o :: o in occurrences && o > after ==> yearOf(o) > year + 5
  {
    var start := yearStart(year);
    var n := bounded(start - SECOND);
    SecondBefore(start);
    StartOrder(yearOf, yearStart, start, year);
    StartOrder(yearOf, yearStart, start, year + 1);
    StartOrder(yearOf, yearStart, after, year);
    assert BoundedNext(occurrences, yearOf, start - SECOND, n);
    forall o | o in occurrences && o > after ensures o >= start {
      StartOrder(yearOf, yearStart, o, year);
    }
    if n != 0 {
      ProbeSkipsNothing(n, start);
    }
  }

  /** The search in chunks is the unbounded search, over more than four centuries. */
  method ChunkedNext(bounded: int -> int, yearOf: int -> int, yearStart: int -> int, after: int, ghost occurrences: iset<int>)
    returns (next: int)
    requires Calendar(yearOf, yearStart) && WholeMinutes(occurrences)
    requires forall t :: BoundedNext(occurrences, yearOf, t, bounded(t))
    ensures next != 0 ==> IsNextAfter(occurrences, after, next)
    ensures next == 0 ==> forall o :: o in occurrences && o > after ==> yearOf(o) > yearOf(after) + 405
  {
    next := bounded(after);
    assert BoundedNext(occurrences, yearOf, after, next);
    if next != 0 {
      return;
    }
    var here := yearOf(after);
    StartOrder(yearOf, yearStart, UpcomingSecond(after), here);
    StartOrder(yearOf, yearStart, after, here);
    var year := here + 5;
    ghost var chunks := 1;
    while year <= here + 400
      invariant 1 <= chunks <= 81 && year == here + 5 * chunks
      invariant forall o :: o in occurrences && o > after ==> yearOf(o) > year
      decreases here + 405 - year
    {
      ProbeYear(occurrences, yearOf, yearStart, bounded, after, year);
      next := bounded(yearStart(year) - SECOND);
      if next != 0 && next > after {
        return;
      }
      year, chunks := year + 5, chunks + 1;
    }
    next := 0;
  }
}
