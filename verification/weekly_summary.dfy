/**
 The weekly completion summary (`WeeklySummaryChart.js`): six
 Monday-aligned weeks ending with the current, partial one, and for each
 week the number of completed plans whose completion date falls in it.

 Instants are whole seconds counted from Monday 1970-01-05 00:00 local
 time, so a week starts exactly at a multiple of `WEEK`. The reference
 instant `now` and the label formatter (`format`) are parameters.
 */
module WeeklySummary {
  import opened Common
  import CourseModel
  import CourseService

  type Instant = int

  const DAY: int := 86400
  const WEEK: int := 7 * DAY
  /** The number of weeks shown. */
  const WEEKS: nat := 6

  /**
   The part of a plan the chart reads. `completedDate` is `None` when the
   record has no date and also when the date does not parse: an invalid
   date compares false with every week boundary, so it is never counted.
   */
  datatype Plan = Plan(completed: bool, completedDate: Option<Instant>)

  /** One bar of the chart. */
  datatype WeekCount = WeekCount(week: string, count: nat)

  /** date-fns `startOfWeek(t, { weekStartsOn: 1 })`: the Monday midnight at or before `t`. */
  function StartOfWeek(t: Instant): (r: Instant)
    ensures r % WEEK == 0
    ensures r <= t < r + WEEK
  {
    t - t % WEEK
  }

  /**
   date-fns `subWeeks(t, i)`: the same time of the same weekday, `i` weeks
   earlier, so its week starts exactly `i` weeks before that of `t`.
   */
  function SubWeeks(t: Instant, i: int): (r: Instant)
    ensures r % WEEK == t % WEEK
    ensures i >= 0 ==> r <= t
    ensures StartOfWeek(r) == StartOfWeek(t) - i * WEEK
  {
    var r := t - i * WEEK;
    MultiplesApart(StartOfWeek(r), StartOfWeek(t) - i * WEEK);
    r
  }

  function Reverse<T>(s: seq<T>): (r: seq<T>)
    ensures |r| == |s|
    ensures forall i :: 0 <= i < |s| ==> r[i] == s[|s| - 1 - i]
  {
    if s == [] then [] else Reverse(s[1..]) + [s[0]]
  }

  /**
   The six week starts, oldest first: the week of `now` and the five
   before it, computed as the source does (map over `i`, then reverse).
   They are Monday-aligned, exactly one week apart, and the last one is
   the start of the week containing `now`.
   */
  function WeekStarts(now: Instant): (starts: seq<Instant>)
    ensures |starts| == WEEKS
    ensures forall i :: 0 <= i < WEEKS ==> starts[i] % WEEK == 0
    ensures forall i :: 0 < i < WEEKS ==> starts[i] == starts[i - 1] + WEEK
    ensures starts[WEEKS - 1] <= now < starts[WEEKS - 1] + WEEK
  {
    var newestFirst := seq(WEEKS, i => StartOfWeek(SubWeeks(now, i)));
    var starts := Reverse(newestFirst);
    forall i | 0 < i < WEEKS ensures starts[i] == starts[i - 1] + WEEK {
      var t := now - (WEEKS - 1 - i) * WEEK;
      assert starts[i] == StartOfWeek(t);
      assert starts[i - 1] == StartOfWeek(t - WEEK);
      ShiftWeek(t);
    }
    starts
  }

  /** Moving back a whole week moves the week start back by a week. */
  lemma ShiftWeek(t: Instant)
    ensures StartOfWeek(t - WEEK) == StartOfWeek(t) - WEEK
  {
    var s := StartOfWeek(t);
    var s' := StartOfWeek(t - WEEK);
    // Both are multiples of WEEK within one week below t - WEEK.
    assert s - WEEK <= t - WEEK < s;
    assert s' <= t - WEEK < s' + WEEK;
    MultiplesApart(s', s - WEEK);
  }

  /** Two multiples of `WEEK` less than a week apart are equal. */
  lemma MultiplesApart(a: int, b: int)
    requires a % WEEK == 0 && b % WEEK == 0
    requires a - WEEK < b < a + WEEK
    ensures a == b
  {
    var qa := a / WEEK;
    var qb := b / WEEK;
    assert a == qa * WEEK;
    assert b == qb * WEEK;
    assert (qa - qb) * WEEK < WEEK && (qb - qa) * WEEK < WEEK;
  }

  /** The exclusive end of bucket `i`: the next week start, or `now` for the last week. */
  function BucketEnd(starts: seq<Instant>, now: Instant, i: nat): Instant
    requires i < |starts|
  {
    if i < |starts| - 1 then starts[i + 1] else now
  }

  /** `date` lies in the half-open bucket `i`. */
  predicate InBucket(now: Instant, i: nat, date: Instant)
    requires i < WEEKS
  {
    var starts := WeekStarts(now);
    starts[i] <= date < BucketEnd(starts, now, i)
  }

  /** A date lies in at most one bucket. */
  lemma BucketsDisjoint(now: Instant, i: nat, j: nat, date: Instant)
    requires i < WEEKS && j < WEEKS
    requires InBucket(now, i, date) && InBucket(now, j, date)
    ensures i == j
  {
    var starts := WeekStarts(now);
    if i < j {
      StartsIncrease(now, i + 1, j);
      assert false;
    } else if j < i {
      StartsIncrease(now, j + 1, i);
      assert false;
    }
  }

  lemma {:induction false} StartsIncrease(now: Instant, i: nat, j: nat)
    requires i <= j < WEEKS
    ensures WeekStarts(now)[i] <= WeekStarts(now)[j]
    decreases j - i
  {
    if i < j {
      StartsIncrease(now, i + 1, j);
    }
  }

  /** The window the chart covers: from the oldest week start up to, not including, `now`. */
  predicate InWindow(now: Instant, date: Instant) {
    WeekStarts(now)[0] <= date < now
  }

  /** The buckets cover the window exactly: a date is in some bucket iff it is in the window. */
  lemma BucketsCoverWindow(now: Instant, date: Instant)
    ensures InWindow(now, date) <==> exists i :: 0 <= i < WEEKS && InBucket(now, i, date)
  {
    var starts := WeekStarts(now);
    if InWindow(now, date) {
      var k := FindBucket(now, date, 0);
      assert InBucket(now, k, date);
    }
    if exists i :: 0 <= i < WEEKS && InBucket(now, i, date) {
      var i :| 0 <= i < WEEKS && InBucket(now, i, date);
      StartsIncrease(now, 0, i);
      if i < WEEKS - 1 {
        StartsIncrease(now, i + 1, WEEKS - 1);
      }
    }
  }

  /** The bucket of a date in the window, searched from `i` onwards. */
  lemma {:induction false} FindBucket(now: Instant, date: Instant, i: nat) returns (k: nat)
    requires i < WEEKS
    requires WeekStarts(now)[i] <= date < now
    ensures i <= k < WEEKS && InBucket(now, k, date)
    decreases WEEKS - i
  {
    if i < WEEKS - 1 && WeekStarts(now)[i + 1] <= date {
      k := FindBucket(now, date, i + 1);
    } else {
      k := i;
    }
  }

  /** A plan the chart looks at: completed and carrying a (valid) date. */
  predicate Dated(p: Plan) {
    p.completed && p.completedDate.Some?
  }

  /** What one plan adds to bucket `i`. */
  function Hit(p: Plan, now: Instant, i: nat): nat
    requires i < WEEKS
  {
    if Dated(p) && InBucket(now, i, p.completedDate.value) then 1 else 0
  }

  /**
   The reference definition of a bar's height: the number of plans that
   are completed, dated, and dated inside bucket `i`.
   */
  function CountIn(plans: seq<Plan>, now: Instant, i: nat): nat
    requires i < WEEKS
  {
    if plans == [] then 0
    else CountIn(plans[..|plans| - 1], now, i) + Hit(plans[|plans| - 1], now, i)
  }

  /**
   The `useMemo` body of the chart: build the six weeks, start every count
   at zero, and for each completed, dated plan scan the weeks in order and
   increment the first bucket that holds the date. Each bar ends up equal
   to the reference count for its week.
   */
  method Aggregate(plans: seq<Plan>, now: Instant, format: Instant -> string)
    returns (data: seq<WeekCount>)
    ensures |data| == WEEKS
    ensures forall i :: 0 <= i < WEEKS ==>
      data[i].week == format(WeekStarts(now)[i]) && data[i].count == CountIn(plans, now, i)
  {
    var weeks := WeekStarts(now);
    data := seq(WEEKS, i requires 0 <= i < WEEKS => WeekCount(format(weeks[i]), 0));
    var k := 0;
    while k < |plans|
      invariant 0 <= k <= |plans|
      invariant |data| == WEEKS
      invariant forall i :: 0 <= i < WEEKS ==>
        data[i].week == format(weeks[i]) && data[i].count == CountIn(plans[..k], now, i)
    {
      var plan := plans[k];
      assert plans[..k + 1][..k] == plans[..k];
      if plan.completed && plan.completedDate.Some? {
        var date := plan.completedDate.value;
        var i := 0;
        while i < |weeks|
          invariant 0 <= i <= |weeks|
          invariant forall j :: 0 <= j < i ==> !InBucket(now, j, date)
        {
          var start := weeks[i];
          var end := if i < |weeks| - 1 then weeks[i + 1] else now;
          if date >= start && date < end {
            forall j | 0 <= j < WEEKS && j != i ensures Hit(plan, now, j) == 0 {
              if InBucket(now, j, date) {
                BucketsDisjoint(now, i, j, date);
              }
            }
            data := data[i := data[i].(count := data[i].count + 1)];
            break;
          }
          i := i + 1;
        }
      }
      k := k + 1;
    }
    assert plans[..k] == plans;
  }

  // ---------------------------------------------------------------------
  // Properties of the counts
  // ---------------------------------------------------------------------

  /** Counting over a concatenation adds the counts. */
  lemma {:induction false} CountAppend(a: seq<Plan>, b: seq<Plan>, now: Instant, i: nat)
    requires i < WEEKS
    ensures CountIn(a + b, now, i) == CountIn(a, now, i) + CountIn(b, now, i)
    decreases |b|
  {
    if b == [] {
      assert a + b == a;
    } else {
      var b' := b[..|b| - 1];
      assert (a + b)[..|a + b| - 1] == a + b';
      CountAppend(a, b', now, i);
    }
  }

  /** Plans that are not completed, or have no valid date, change no count. */
  lemma {:induction false} UndatedPlansIgnored(a: seq<Plan>, b: seq<Plan>, now: Instant, i: nat)
    requires i < WEEKS
    requires forall k :: 0 <= k < |b| ==> !Dated(b[k])
    ensures CountIn(a + b, now, i) == CountIn(a, now, i)
    decreases |b|
  {
    if b != [] {
      var b' := b[..|b| - 1];
      assert (a + b)[..|a + b| - 1] == a + b';
      UndatedPlansIgnored(a, b', now, i);
    } else {
      assert a + b == a;
    }
  }

  /** If no plan is completed with a valid date, every bar is zero. */
  lemma AllUndatedAllZero(plans: seq<Plan>, now: Instant, i: nat)
    requires i < WEEKS
    requires forall k :: 0 <= k < |plans| ==> !Dated(plans[k])
    ensures CountIn(plans, now, i) == 0
  {
    UndatedPlansIgnored([], plans, now, i);
    assert [] + plans == plans;
  }

  /** Dates before the oldest week start, or at or after `now`, land in no bucket. */
  lemma OutsideWindowIgnored(p: Plan, now: Instant, i: nat)
    requires i < WEEKS
    requires p.completedDate.Some? && !InWindow(now, p.completedDate.value)
    ensures Hit(p, now, i) == 0
  {
    if InBucket(now, i, p.completedDate.value) {
      BucketsCoverWindow(now, p.completedDate.value);
    }
  }

  /** The sum of the counts of buckets `i` up to the last. */
  function SumFrom(plans: seq<Plan>, now: Instant, i: nat): nat
    requires i <= WEEKS
    decreases WEEKS - i
  {
    if i == WEEKS then 0 else CountIn(plans, now, i) + SumFrom(plans, now, i + 1)
  }

  /** The total height of all six bars. */
  function Total(plans: seq<Plan>, now: Instant): nat {
    SumFrom(plans, now, 0)
  }

  /** The plans the chart should count: completed, dated, and dated inside the window. */
  function Windowed(plans: seq<Plan>, now: Instant): nat {
    if plans == [] then 0
    else
      var p := plans[|plans| - 1];
      Windowed(plans[..|plans| - 1], now)
        + (if Dated(p) && InWindow(now, p.completedDate.value) then 1 else 0)
  }

  /** The hits of one plan in buckets `i` onwards. */
  function HitsFrom(p: Plan, now: Instant, i: nat): nat
    requires i <= WEEKS
    decreases WEEKS - i
  {
    if i == WEEKS then 0 else Hit(p, now, i) + HitsFrom(p, now, i + 1)
  }

  /** One plan scores in buckets `i` onwards exactly once if its date is in one of them, else never. */
  lemma {:induction false} HitsFromValue(p: Plan, now: Instant, i: nat)
    requires i <= WEEKS
    ensures HitsFrom(p, now, i) ==
      (if Dated(p) && exists j :: i <= j < WEEKS && InBucket(now, j, p.completedDate.value) then 1 else 0)
    decreases WEEKS - i
  {
    if i < WEEKS {
      HitsFromValue(p, now, i + 1);
      if Dated(p) && InBucket(now, i, p.completedDate.value) {
        forall j | i < j < WEEKS ensures !InBucket(now, j, p.completedDate.value) {
          if InBucket(now, j, p.completedDate.value) {
            BucketsDisjoint(now, i, j, p.completedDate.value);
          }
        }
      }
    }
  }

  lemma {:induction false} SumFromSnoc(plans: seq<Plan>, p: Plan, now: Instant, i: nat)
    requires i <= WEEKS
    ensures SumFrom(plans + [p], now, i) == SumFrom(plans, now, i) + HitsFrom(p, now, i)
    decreases WEEKS - i
  {
    if i < WEEKS {
      assert (plans + [p])[..|plans + [p]| - 1] == plans;
      SumFromSnoc(plans, p, now, i + 1);
    }
  }

  /**
   Each plan is counted exactly once if it is completed and dated inside
   the window and never otherwise, so the bars add up to the number of
   such plans, which is at most the number of plans.
   */
  lemma {:induction false} TotalCountsWindowedPlans(plans: seq<Plan>, now: Instant)
    ensures Total(plans, now) == Windowed(plans, now)
    ensures Total(plans, now) <= |plans|
  {
    if plans != [] {
      var init := plans[..|plans| - 1];
      var p := plans[|plans| - 1];
      assert plans == init + [p];
      TotalCountsWindowedPlans(init, now);
      SumFromSnoc(init, p, now, 0);
      HitsFromValue(p, now, 0);
      if Dated(p) {
        BucketsCoverWindow(now, p.completedDate.value);
      }
    }
  }

  /** A completed plan dated in the window scores in exactly the one bucket that holds its date. */
  lemma CountedInItsBucket(p: Plan, now: Instant, i: nat)
    requires i < WEEKS
    requires Dated(p) && InWindow(now, p.completedDate.value)
    ensures Hit(p, now, i) == 1 <==> InBucket(now, i, p.completedDate.value)
    ensures exists j :: 0 <= j < WEEKS && Hit(p, now, j) == 1
  {
    BucketsCoverWindow(now, p.completedDate.value);
    var j :| 0 <= j < WEEKS && InBucket(now, j, p.completedDate.value);
    assert Hit(p, now, j) == 1;
  }

  /** Taking out the plan at position `k` removes one copy of it and its hit. */
  lemma RemoveAt(b: seq<Plan>, k: nat, now: Instant, i: nat)
    requires k < |b| && i < WEEKS
    ensures multiset(b[..k] + b[k + 1..]) == multiset(b) - multiset{b[k]}
    ensures CountIn(b, now, i) == CountIn(b[..k] + b[k + 1..], now, i) + Hit(b[k], now, i)
  {
    var x := b[k];
    assert b == b[..k] + [x] + b[k + 1..];
    assert multiset(b) == multiset(b[..k]) + multiset{x} + multiset(b[k + 1..]);
    CountAppend(b[..k] + [x], b[k + 1..], now, i);
    CountAppend(b[..k], [x], now, i);
    CountAppend(b[..k], b[k + 1..], now, i);
    assert [x][..0] == [];
  }

  /** The counts depend only on which plans there are, not on their order. */
  lemma {:induction false} CountPermutationInvariant(a: seq<Plan>, b: seq<Plan>, now: Instant, i: nat)
    requires i < WEEKS
    requires multiset(a) == multiset(b)
    ensures CountIn(a, now, i) == CountIn(b, now, i)
    decreases |a|
  {
    if a == [] {
      assert |b| == |multiset(b)| == 0;
    } else {
      var x := a[|a| - 1];
      var a' := a[..|a| - 1];
      assert a == a' + [x];
      assert multiset(a') == multiset(a) - multiset{x};
      assert x in multiset(b);
      var k :| 0 <= k < |b| && b[k] == x;
      RemoveAt(b, k, now, i);
      CountPermutationInvariant(a', b[..k] + b[k + 1..], now, i);
    }
  }

  // ---------------------------------------------------------------------
  // From server records to chart input, and a calendar scenario
  // ---------------------------------------------------------------------

  /**
   The chart's view of a record: the server sends `completedDate` as an
   ISO date, which `parseISO` reads as local midnight of that day.
   */
  function PlanOf(c: CourseModel.Course): (p: Plan)
    ensures p.completed == c.completed
    ensures p.completedDate.Some? <==> c.completedDate.Some?
    ensures c.completedDate.Some? ==> p.completedDate.value % DAY == 0
    ensures c.completedDate.Some? ==> p.completedDate.value / DAY == c.completedDate.value
  {
    Plan(c.completed,
         if c.completedDate.Some? then Some(c.completedDate.value * DAY) else None)
  }

  /**
   A record marked completed today is counted in the current week's bar,
   whenever `now` is later today (the completion date is a day, read as
   midnight, and the last bucket excludes `now` itself, so at exactly
   midnight it would not be counted yet).
   */
  lemma CompletedTodayCountsThisWeek(repo: CourseService.Repo, id: CourseModel.CourseId,
                                      today: CourseModel.Date, now: Instant)
    requires id in repo
    requires today * DAY < now < (today + 1) * DAY
    ensures var saved := CourseService.MarkCompleted(repo, id, true, today).value.1;
      Hit(PlanOf(saved), now, WEEKS - 1) == 1
  {
    var saved := CourseService.MarkCompleted(repo, id, true, today).value.1;
    var s := WeekStarts(now)[WEEKS - 1];
    WeekAlignedIsDayAligned(s);
    DayFloor(s, today, now);
    assert PlanOf(saved).completedDate == Some(today * DAY);
    assert InBucket(now, WEEKS - 1, today * DAY);
  }

  lemma WeekAlignedIsDayAligned(s: int)
    requires s % WEEK == 0
    ensures s % DAY == 0
  {
    var q := s / WEEK;
    assert s == (7 * q) * DAY;
  }

  /** A midnight at or before `now` is at or before the midnight that starts `now`'s day. */
  lemma DayFloor(s: int, day: int, now: int)
    requires s % DAY == 0
    requires s <= now && day * DAY < now < (day + 1) * DAY
    ensures s <= day * DAY
  {
    var q := s / DAY;
    assert s == q * DAY;
    assert q * DAY < (day + 1) * DAY;
    assert q < day + 1;
    assert q * DAY <= day * DAY;
  }

  /**
   Days since 1970-01-01 of a proleptic Gregorian calendar date (the
   days-from-civil algorithm).
   */
  function DaysFromCivil(y: int, m: int, d: int): int
    requires 1 <= m <= 12 && 1 <= d <= 31
  {
    var y' := if m <= 2 then y - 1 else y;
    var era := y' / 400;
    var yoe := y' - era * 400;
    var mp := (m + 9) % 12;
    var doy := (153 * mp + 2) / 5 + d - 1;
    var doe := yoe * 365 + yoe / 4 - yoe / 100 + doy;
    era * 146097 + doe - 719468
  }

  /** `parseISO("YYYY-MM-DD")` on the model's clock: local midnight of that day. */
  function Midnight(y: int, m: int, d: int): Instant
    requires 1 <= m <= 12 && 1 <= d <= 31
  {
    (DaysFromCivil(y, m, d) - 4) * DAY
  }

  /** The calendar days used below: 2024-03-20, 2024-03-18 and 2024-01-01. */
  lemma MarchDates()
    ensures Midnight(2024, 3, 20) == 19798 * DAY
    ensures Midnight(2024, 3, 18) == 19796 * DAY
    ensures Midnight(2024, 1, 1) == 19719 * DAY
  {
  }

  /**
   With `now` at noon on Wednesday 2024-03-20 (day 19798, see `MarchDates`),
   a plan completed on Monday 2024-03-18 (day 19796) lands in the last
   (current) bucket only, and one completed on 2024-01-01 (day 19719) lands
   in none.
   */
  lemma MarchScenario()
    ensures var now := 19798 * DAY + DAY / 2;
      && Hit(Plan(true, Some(19796 * DAY)), now, WEEKS - 1) == 1
      && (forall i :: 0 <= i < WEEKS - 1 ==> Hit(Plan(true, Some(19796 * DAY)), now, i) == 0)
      && (forall i :: 0 <= i < WEEKS ==> Hit(Plan(true, Some(19719 * DAY)), now, i) == 0)
  {
    var now := 19798 * DAY + DAY / 2;
    var starts := WeekStarts(now);
    assert starts[WEEKS - 1] == 19796 * DAY by {
      assert StartOfWeek(now) == 19796 * DAY;
    }
    assert starts[0] == 19761 * DAY;
    var march := Plan(true, Some(19796 * DAY));
    var january := Plan(true, Some(19719 * DAY));
    assert InBucket(now, WEEKS - 1, march.completedDate.value);
    forall i | 0 <= i < WEEKS - 1 ensures Hit(march, now, i) == 0 {
      if InBucket(now, i, march.completedDate.value) {
        BucketsDisjoint(now, i, WEEKS - 1, march.completedDate.value);
      }
    }
    forall i | 0 <= i < WEEKS ensures Hit(january, now, i) == 0 {
      OutsideWindowIgnored(january, now, i);
    }
  }
}
