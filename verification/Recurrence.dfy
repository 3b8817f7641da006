/** Fires of a recurring plan, in microseconds: what one step returns, a whole preview, and its closed-form count. */
module Recurrence {
  import opened Outcomes

  /** An earlier fire moves the lower bound just past it. */
  function LowerBound(start: int, after: Option<int>): int {
    if after.Some? && after.value + 1 > start then after.value + 1 else start
  }

  // ------------------------------------------------ intervals

  function GridPoint(start: int, every: int, k: int): int {
    start + k * every
  }

  function NextIntervalFire(start: int, every: int, after: Option<int>): int
    requires every > 0
  {
    var lower := LowerBound(start, after);
    if lower <= start then start
    else
      var candidate := start + (lower - start) / every * every;
      if candidate < lower then candidate + every else candidate
  }

  /** The first fire is the start; after grid point k, or anywhere before the next, comes grid point k + 1. */
  lemma NextIsNextGridPoint(start: int, every: int, k: int, after: int)
    requires every > 0 && k >= 0 && GridPoint(start, every, k) <= after < GridPoint(start, every, k + 1)
    ensures NextIntervalFire(start, every, Some(after)) == GridPoint(start, every, k + 1)
    ensures NextIntervalFire(start, every, None) == start
  {
    assert GridPoint(start, every, k + 1) == GridPoint(start, every, k) + every;
    assert k * every >= 0;
    var offset := after + 1 - start;
    if offset == (k + 1) * every {
      QuotientIs(offset, every, k + 1);
    } else {
      QuotientIs(offset, every, k);
    }
  }

  lemma QuotientIs(n: int, every: int, k: int)
    requires every > 0 && k * every <= n < k * every + every
    ensures n / every == k
  {
    var q, r := n / every, n % every;
    assert n == q * every + r && 0 <= r < every;
    if q > k {
      assert q * every >= (k + 1) * every by { Monotone(k + 1, q, every); }
    } else if q < k {
      assert k * every >= (q + 1) * every by { Monotone(q + 1, k, every); }
    }
  }

  lemma Monotone(a: int, b: int, every: int)
    requires a <= b && every > 0
    ensures a * every <= b * every
  {
    assert (b - a) * every >= 0;
  }

  /** Fires up to and including the end. */
  function ByEnd(start: int, end: int, every: int): nat
    requires every > 0
  {
    var count := (end - start) / every + 1;
    if count > 0 then count else 0
  }

  lemma ByEndCounts(start: int, end: int, every: int, k: nat)
    requires every > 0
    ensures GridPoint(start, every, k) <= end <==> k < ByEnd(start, end, every)
  {
    var q, r := (end - start) / every, (end - start) % every;
    assert end - start == q * every + r;
    if k <= q {
      Monotone(k, q, every);
    } else {
      Monotone(q + 1, k, every);
    }
  }

  function Least(a: nat, b: Option<nat>): (least: nat)
    ensures least <= a && (b.Some? ==> least <= b.value) && (least == a || b == Some(least))
  {
    if b.Some? && b.value < a then b.value else a
  }

  /** Neither an end nor a maximum is refused; otherwise the count comes without enumerating. */
  function PlanOccurrences(start: int, end: Option<int>, every: int, maximum: Option<nat>): (planned: Outcome<nat>)
    requires every > 0
    ensures planned.Accepted? <==> end.Some? || maximum.Some?
    ensures end.None? && maximum.Some? ==> planned.value == maximum.value
    ensures end.Some? ==> planned.value <= ByEnd(start, end.value, every)
  {
    if end.None? then (if maximum.None? then Rejected else Accepted(maximum.value))
    else Accepted(Least(ByEnd(start, end.value, every), maximum))
  }

  /**
    Enumerates fires one by one until the limit or the end. Fire k is grid point k, none is skipped, and
    there are as many as the limit and the end allow: when the preview's own limit does not bind, exactly
    the number that the closed form gives.
   */
  method PreviewFires(start: int, end: Option<int>, every: int, maximum: Option<nat>, count: nat, immediate: bool)
    returns (fires: seq<int>)
    requires every > 0
    ensures forall k | 0 <= k < |fires| :: fires[k] == GridPoint(start, every, k)
    ensures |fires| == if end.None? then Least(count, maximum)
                       else Least(Least(count, maximum), Some(ByEnd(start, end.value, every)))
    ensures var estimate := PlanOccurrences(start, end, every, maximum);
      estimate.Accepted? && estimate.value <= count ==> |fires| == estimate.value
    ensures forall i, j | 0 <= i < j < |fires| :: fires[i] < fires[j]
  {
    var limit := Least(count, maximum);
    var previous: Option<int> := None;
    fires := [];
    for occurrence := 0 to limit
      invariant |fires| == occurrence
      invariant forall k | 0 <= k < |fires| :: fires[k] == GridPoint(start, every, k)
      invariant previous == if occurrence == 0 then None else Some(GridPoint(start, every, occurrence - 1))
      invariant end.Some? ==> occurrence <= ByEnd(start, end.value, every)
    {
      if occurrence > 0 {
        NextIsNextGridPoint(start, every, occurrence - 1, GridPoint(start, every, occurrence - 1));
      }
      var fireAt := if immediate && previous.None? then start else NextIntervalFire(start, every, previous);
      if end.Some? {
        ByEndCounts(start, end.value, every, occurrence);
        if fireAt > end.value {
          break;
        }
      }
      fires := fires + [fireAt];
      previous := Some(fireAt);
    }
    forall i, j | 0 <= i < j < |fires| ensures fires[i] < fires[j] {
      FiresIncrease(start, every, i, j);
    }
  }

  lemma OnGrid(start: int, every: int, at: int, k: int)
    requires every > 0 && at == GridPoint(start, every, k)
    ensures (at - start) % every == 0 && (k >= 0 ==> start <= at)
  {
    QuotientIs(at - start, every, k);
    assert at - start == (at - start) / every * every + (at - start) % every;
    if k >= 0 {
      Monotone(0, k, every);
    }
  }

  lemma WhichGridPoint(start: int, every: int, at: int) returns (k: nat)
    requires every > 0 && start <= at && (at - start) % every == 0
    ensures at == GridPoint(start, every, k)
  {
    k := (at - start) / every;
    assert at - start == k * every + (at - start) % every;
  }

  /** With no maximum in the way, the fires are exactly the grid points from the start to the end. */
  lemma FiresAreTheGrid(start: int, end: int, every: int, fires: seq<int>, at: int)
    requires every > 0 && |fires| == ByEnd(start, end, every)
    requires forall k | 0 <= k < |fires| :: fires[k] == GridPoint(start, every, k)
    ensures at in fires <==> start <= at <= end && (at - start) % every == 0
  {
    hide GridPoint, ByEnd;
    if start <= at <= end && (at - start) % every == 0 {
      var k := WhichGridPoint(start, every, at);
      ByEndCounts(start, end, every, k);
      assert fires[k] == at;
    }
    if at in fires {
      var k: nat :| k < |fires| && fires[k] == at;
      ByEndCounts(start, end, every, k);
      OnGrid(start, every, at, k);
    }
  }

  lemma FiresIncrease(start: int, every: int, i: int, j: int)
    requires every > 0 && i < j
    ensures GridPoint(start, every, i) < GridPoint(start, every, j)
  {
    Monotone(i + 1, j, every);
  }

  // ------------------------------------------------ calendars

  const SCAN_DAYS := 73200

  datatype Calendar = Daily(interval: nat) | Weekly(interval: nat, weekdays: set<nat>)

  /** Days are numbered from a Monday; the period counts from the start's local day. */
  predicate DayMatches(calendar: Calendar, startDay: int, day: int)
    requires calendar.interval >= 1
  {
    var distance := day - startDay;
    distance >= 0 && match calendar
                     case Daily(interval) => distance % interval == 0
                     case Weekly(interval, weekdays) => distance / 7 % interval == 0 && day % 7 in weekdays
  }

  /** Daily: every so many days from the first. Weekly: the given weekdays of every so many weeks from the first. */
  ghost predicate Falls(calendar: Calendar, startDay: int, day: int) {
    match calendar
    case Daily(interval) => exists k: nat :: day == startDay + k * interval
    case Weekly(interval, weekdays) =>
      day % 7 in weekdays && exists k: nat :: InWeek(startDay, k * interval, day)
  }

  predicate InWeek(startDay: int, week: int, day: int) {
    startDay + 7 * week <= day < startDay + 7 * week + 7
  }

  lemma DividesExactly(distance: int, interval: nat)
    requires interval >= 1
    ensures (distance >= 0 && distance % interval == 0) <==> exists k: nat :: distance == k * interval
  {
    if distance >= 0 && distance % interval == 0 {
      assert distance == (distance / interval) * interval;
    }
    if k: nat :| distance == k * interval {
      QuotientIs(distance, interval, k);
    }
  }

  lemma MatchesExactly(calendar: Calendar, startDay: int, day: int)
    requires calendar.interval >= 1
    ensures DayMatches(calendar, startDay, day) <==> Falls(calendar, startDay, day)
  {
    var distance, interval := day - startDay, calendar.interval;
    match calendar
    case Daily(_) =>
      DividesExactly(distance, interval);
      if k: nat :| distance == k * interval {
        assert day == startDay + k * interval;
      }
    case Weekly(_, weekdays) =>
      DividesExactly(distance / 7, interval);
      if distance >= 0 && distance / 7 % interval == 0 {
        var k: nat :| distance / 7 == k * interval;
        assert InWeek(startDay, k * interval, day);
      }
      if k: nat :| InWeek(startDay, k * interval, day) {
        assert distance / 7 == k * interval;
      }
  }

  /** A day fires at its first valid instant, if it has one; `zone` lists a day's instants in order. */
  predicate FiresOn(calendar: Calendar, zone: int -> seq<int>, startDay: int, lower: int, day: int)
    requires calendar.interval >= 1
  {
    DayMatches(calendar, startDay, day) && zone(day) != [] && zone(day)[0] >= lower
  }

  /** Scans day by day from the lower bound's day, for two hundred years. */
  method NextCalendarFire(calendar: Calendar, zone: int -> seq<int>, startDay: int, lower: int, lowerDay: int)
    returns (fire: Outcome<int>, ghost on: int)
    requires calendar.interval >= 1
    ensures fire.Accepted? ==>
              && lowerDay <= on < lowerDay + SCAN_DAYS && FiresOn(calendar, zone, startDay, lower, on)
              && fire.value == zone(on)[0]
              && forall day | lowerDay <= day < on :: !FiresOn(calendar, zone, startDay, lower, day)
    ensures fire.Rejected? ==> forall day | lowerDay <= day < lowerDay + SCAN_DAYS ::
              !FiresOn(calendar, zone, startDay, lower, day)
    ensures fire.Accepted? ==>
              && Falls(calendar, startDay, on) && zone(on) != [] && zone(on)[0] == fire.value >= lower
              && forall day | lowerDay <= day < on && zone(day) != [] ::
                   Falls(calendar, startDay, day) ==> zone(day)[0] < lower
    ensures fire.Rejected? ==>
              forall day | lowerDay <= day < lowerDay + 366 * 200 && zone(day) != [] ::
                Falls(calendar, startDay, day) ==> zone(day)[0] < lower
  {
    hide Falls;
    forall day ensures DayMatches(calendar, startDay, day) <==> Falls(calendar, startDay, day) {
      MatchesExactly(calendar, startDay, day);
    }
    var day := lowerDay;
    for scanned := 0 to SCAN_DAYS
      invariant day == lowerDay + scanned
      invariant forall earlier | lowerDay <= earlier < day :: !FiresOn(calendar, zone, startDay, lower, earlier)
      invariant forall earlier | lowerDay <= earlier < day && zone(earlier) != [] ::
                  Falls(calendar, startDay, earlier) ==> zone(earlier)[0] < lower
    {
      if DayMatches(calendar, startDay, day) {
        var candidates := zone(day);
        if candidates != [] && candidates[0] >= lower {
          return Accepted(candidates[0]), day;
        }
      }
      day := day + 1;
    }
    return Rejected, day;
  }

  /** A zone in which later days fire later, and no day before the bound's day reaches the bound. */
  ghost predicate Forward(zone: int -> seq<int>, lower: int, lowerDay: int) {
    && (forall a, b | a < b && zone(a) != [] && zone(b) != [] :: zone(a)[0] < zone(b)[0])
    && (forall day | day < lowerDay && zone(day) != [] :: zone(day)[0] < lower)
  }

  /** The day the scan stops at gives the earliest instant, over all days, that the calendar fires from the bound on. */
  lemma ScanFindsEarliest(calendar: Calendar, zone: int -> seq<int>, startDay: int, lower: int, lowerDay: int, on: int,
                          day: int)
    requires calendar.interval >= 1 && Forward(zone, lower, lowerDay)
    requires FiresOn(calendar, zone, startDay, lower, on) && FiresOn(calendar, zone, startDay, lower, day)
    requires forall earlier | lowerDay <= earlier < on :: !FiresOn(calendar, zone, startDay, lower, earlier)
    ensures zone(on)[0] <= zone(day)[0]
  {
    assert day >= lowerDay;
    assert day >= on;
  }
}
