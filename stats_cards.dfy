/** The summary cards above the dashboard: totals, goal counts, the last
    seven days' totals, the average duration and the day streak, all computed
    from the signed-in user's activities and goals. */
module StatsCards {
  import opened Js
  import opened Entities

  /** `activity.calories || 0`. */
  function CaloriesOf(a: Activity): int {
    if a.calories.Some? then a.calories.value else 0
  }

  /** `activities.reduce((total, a) => total + a.duration, 0)`. */
  function TotalMinutes(acts: seq<Activity>): int {
    if acts == [] then 0 else acts[0].duration + TotalMinutes(acts[1..])
  }

  /** `activities.reduce((total, a) => total + (a.calories || 0), 0)`. */
  function TotalCalories(acts: seq<Activity>): int {
    if acts == [] then 0 else CaloriesOf(acts[0]) + TotalCalories(acts[1..])
  }

  /** `reduce` folds from the left while `TotalMinutes` adds from the head;
      the sum splits over any cut of the list, so both give the same total. */
  lemma {:induction false} TotalMinutesAppend(a: seq<Activity>, b: seq<Activity>)
    ensures TotalMinutes(a + b) == TotalMinutes(a) + TotalMinutes(b)
  {
    if a == [] {
      assert a + b == b;
    } else {
      assert (a + b)[0] == a[0];
      assert (a + b)[1..] == a[1..] + b;
      TotalMinutesAppend(a[1..], b);
    }
  }

  /** The calorie sum splits over any cut of the list, as `TotalMinutes` does. */
  lemma {:induction false} TotalCaloriesAppend(a: seq<Activity>, b: seq<Activity>)
    ensures TotalCalories(a + b) == TotalCalories(a) + TotalCalories(b)
  {
    if a == [] {
      assert a + b == b;
    } else {
      assert (a + b)[0] == a[0];
      assert (a + b)[1..] == a[1..] + b;
      TotalCaloriesAppend(a[1..], b);
    }
  }

  /** The left fold of `reduce`: one more activity at the end adds its
      duration and its calories, counting missing calories as 0. */
  lemma FoldStep(acts: seq<Activity>, a: Activity)
    ensures TotalMinutes(acts + [a]) == TotalMinutes(acts) + a.duration
    ensures TotalCalories(acts + [a]) == TotalCalories(acts) + CaloriesOf(a)
  {
    TotalMinutesAppend(acts, [a]);
    TotalCaloriesAppend(acts, [a]);
  }

  /** Goals still under way: `progress < target`. */
  function ActiveGoals(goals: seq<Goal>): nat {
    if goals == [] then 0
    else (if Less(goals[0].progress, goals[0].target) then 1 else 0) + ActiveGoals(goals[1..])
  }

  /** Goals reached: `progress >= target`. */
  function CompletedGoals(goals: seq<Goal>): nat {
    if goals == [] then 0
    else (if AtLeast(goals[0].progress, goals[0].target) then 1 else 0) + CompletedGoals(goals[1..])
  }

  /** While every progress and target is a number, each goal is active or
      completed and never both, so the two cards add up to the goal count. */
  lemma {:induction false} GoalCountsPartition(goals: seq<Goal>)
    requires forall i :: 0 <= i < |goals| ==> goals[i].progress.Int? && goals[i].target.Int?
    ensures ActiveGoals(goals) + CompletedGoals(goals) == |goals|
  {
    if goals != [] {
      GoalCountsPartition(goals[1..]);
    }
  }

  /** A goal whose target is NaN (`parseInt` found no digits) is counted on
      neither card: the partition needs numeric targets. */
  lemma NaNTargetCountedNowhere(g: Goal)
    requires g.target.NaN?
    ensures ActiveGoals([g]) + CompletedGoals([g]) == 0
  {
  }

  /** The activities of the last week: those dated at or after `now` minus
      seven days. */
  function ThisWeek(acts: seq<Activity>, now: int): (r: seq<Activity>)
    ensures |r| <= |acts|
    ensures forall a :: a in r <==> a in acts && a.date >= now - 7 * DayMs
  {
    if acts == [] then []
    else (if acts[0].date >= now - 7 * DayMs then [acts[0]] else []) + ThisWeek(acts[1..], now)
  }

  /** With no negative durations, the week's minutes never exceed the total. */
  lemma {:induction false} ThisWeekMinutesBounded(acts: seq<Activity>, now: int)
    requires forall i :: 0 <= i < |acts| ==> acts[i].duration >= 0
    ensures 0 <= TotalMinutes(ThisWeek(acts, now)) <= TotalMinutes(acts)
  {
    if acts != [] {
      ThisWeekMinutesBounded(acts[1..], now);
      var rest := ThisWeek(acts[1..], now);
      if acts[0].date >= now - 7 * DayMs {
        assert ([acts[0]] + rest)[0] == acts[0] && ([acts[0]] + rest)[1..] == rest;
      } else {
        assert [] + rest == rest;
      }
    }
  }

  /** The figures both the summary cards and the progress tab show. */
  datatype Summary = Summary(count: nat, totalMinutes: int, totalCalories: int, avgDuration: int)

  /** Count, totals, and `Math.round(totalMinutes / count)`, or 0 when there
      are no activities. */
  function Summarize(acts: seq<Activity>): (s: Summary)
    ensures s.count == |acts|
    ensures s.totalMinutes == TotalMinutes(acts) && s.totalCalories == TotalCalories(acts)
    ensures s.count == 0 ==> s.avgDuration == 0
    ensures s.count > 0 ==>
      2 * |acts| * s.avgDuration <= 2 * TotalMinutes(acts) + |acts| < 2 * |acts| * s.avgDuration + 2 * |acts|
  {
    var n := |acts|;
    var total := TotalMinutes(acts);
    Summary(n, total, TotalCalories(acts), if n > 0 then RoundQuotient(total, n) else 0)
  }

  lemma {:induction false} TotalMinutesBounds(acts: seq<Activity>, lo: int, hi: int)
    requires forall i :: 0 <= i < |acts| ==> lo <= acts[i].duration <= hi
    ensures lo * |acts| <= TotalMinutes(acts) <= hi * |acts|
  {
    if acts != [] {
      TotalMinutesBounds(acts[1..], lo, hi);
      assert lo * |acts| == lo + lo * |acts[1..]|;
      assert hi * |acts| == hi + hi * |acts[1..]|;
    }
  }

  /** The average lies between the shortest and the longest duration. */
  lemma AverageWithinDurations(acts: seq<Activity>, lo: int, hi: int)
    requires |acts| > 0
    requires forall i :: 0 <= i < |acts| ==> lo <= acts[i].duration <= hi
    ensures lo <= Summarize(acts).avgDuration <= hi
  {
    TotalMinutesBounds(acts, lo, hi);
    RoundQuotientBetween(TotalMinutes(acts), |acts|, lo, hi);
  }

  /** No activities: every figure is 0. */
  lemma SummaryOfNothing()
    ensures Summarize([]) == Summary(0, 0, 0, 0)
  {
  }

  // ---------------------------------------------------------------------------
  // The day streak

  /** The day number of every activity, in list order. */
  function DaysOf(acts: seq<Activity>): (r: seq<int>)
    ensures |r| == |acts|
    ensures forall i :: 0 <= i < |acts| ==> r[i] == Day(acts[i].date)
  {
    if acts == [] then [] else [Day(acts[0].date)] + DaysOf(acts[1..])
  }

  /** Some activity falls on day `d`. */
  predicate ActiveOn(acts: seq<Activity>, d: int) {
    exists i :: 0 <= i < |acts| && Day(acts[i].date) == d
  }

  predicate StrictlyDecreasing(s: seq<int>) {
    forall i, j :: 0 <= i < j < |s| ==> s[i] > s[j]
  }

  /** Inserts `d` into a strictly decreasing list, unless it is already there. */
  function InsertDescending(s: seq<int>, d: int): (r: seq<int>)
    requires StrictlyDecreasing(s)
    ensures StrictlyDecreasing(r)
    ensures forall x :: x in r <==> x in s || x == d
    ensures |r| <= |s| + 1
  {
    if s == [] then [d]
    else if d > s[0] then [d] + s
    else if d == s[0] then s
    else
      var rest := InsertDescending(s[1..], d);
      TailBelowHead(s);
      PushKeepsDecreasing(s[0], rest);
      assert s == [s[0]] + s[1..];
      [s[0]] + rest
  }

  /** Every element after the head of a strictly decreasing list is below it. */
  lemma TailBelowHead(s: seq<int>)
    requires StrictlyDecreasing(s) && s != []
    ensures forall x :: x in s[1..] ==> x < s[0]
  {
    forall x | x in s[1..] ensures x < s[0] {
      var j :| 0 <= j < |s[1..]| && s[1..][j] == x;
      assert s[j + 1] == x;
    }
  }

  /** A head above every element keeps a strictly decreasing list so. */
  lemma PushKeepsDecreasing(h: int, s: seq<int>)
    requires StrictlyDecreasing(s) && forall x :: x in s ==> x < h
    ensures StrictlyDecreasing([h] + s)
  {
    var r := [h] + s;
    forall i, j | 0 <= i < j < |r| ensures r[i] > r[j] {
      assert r[j] == s[j - 1];
      if i > 0 {
        assert r[i] == s[i - 1];
      } else {
        assert s[j - 1] in s;
      }
    }
  }

  /** `[...new Set(days)].sort().reverse()`: the distinct days, newest first.
      (ISO dates sort as text in calendar order.) */
  function DistinctDescending(days: seq<int>): (r: seq<int>)
    ensures StrictlyDecreasing(r)
    ensures forall x :: x in r <==> x in days
    ensures |r| <= |days|
  {
    if days == [] then []
    else
      var r := InsertDescending(DistinctDescending(days[..|days| - 1]), days[|days| - 1]);
      assert forall x :: x in days <==> x in days[..|days| - 1] || x == days[|days| - 1] by {
        assert days == days[..|days| - 1] + [days[|days| - 1]];
      }
      r
  }

  /** How many of the newest days run back from `cur` one day at a time:
      what the source's loop counts before its first mismatch. */
  function Run(dates: seq<int>, cur: int): (k: nat)
    ensures k <= |dates|
  {
    if dates == [] || dates[0] != cur then 0 else 1 + Run(dates[1..], cur - 1)
  }

  /** The distinct activity days, newest first. */
  function ActivityDates(acts: seq<Activity>): seq<int> {
    DistinctDescending(DaysOf(acts))
  }

  /** The streak the card shows for `today`. */
  function Streak(acts: seq<Activity>, today: int): nat {
    if acts == [] then 0 else Run(ActivityDates(acts), today)
  }

  /** `calculateStreak`: walk the distinct days newest first while each is the
      day expected, stepping the expected day back by one. */
  method CalculateStreak(acts: seq<Activity>, now: int) returns (streak: nat)
    ensures streak == Streak(acts, Day(now))
  {
    if |acts| == 0 {
      return 0;
    }
    var dates := DistinctDescending(DaysOf(acts));
    streak := 0;
    var today := Day(now);
    var current := today;
    var i := 0;
    while i < |dates|
      invariant 0 <= i <= |dates|
      invariant streak == i && current == today - i
      invariant Run(dates, today) == i + Run(dates[i..], current)
    {
      if dates[i] == current {
        assert dates[i..][1..] == dates[i + 1..];
        streak := streak + 1;
        current := current - 1;
      } else {
        break;
      }
      i := i + 1;
    }
    assert i == |dates| ==> dates[i..] == [];
  }

  /** The first of a strictly decreasing list is its largest element. */
  lemma HeadIsLargest(s: seq<int>, x: int)
    requires StrictlyDecreasing(s) && x in s
    ensures s[0] >= x
  {
  }

  /** On a strictly decreasing list with nothing after `cur`, the run from
      `cur` is `k` when `cur - k + 1` up to `cur` are all in the list and
      `cur - k` is not. */
  lemma {:induction false} RunCharacterized(s: seq<int>, cur: int)
    requires StrictlyDecreasing(s)
    requires forall x :: x in s ==> x <= cur
    ensures var k := Run(s, cur);
      (forall d :: cur - k < d <= cur ==> d in s) && cur - k !in s
  {
    if s == [] {
    } else if s[0] != cur {
      assert s[0] in s;
      forall x | x in s ensures x != cur {
        HeadIsLargest(s, x);
      }
    } else {
      var t := s[1..];
      assert s == [s[0]] + t;
      assert StrictlyDecreasing(t) by {
        forall i, j | 0 <= i < j < |t| ensures t[i] > t[j] {
          assert t[i] == s[i + 1] && t[j] == s[j + 1];
        }
      }
      forall x | x in t ensures x <= cur - 1 {
        var i :| 0 <= i < |t| && t[i] == x;
        assert s[i + 1] == x;
      }
      RunCharacterized(t, cur - 1);
    }
  }

  /** Activities on `k` days in a row ending today, and none the day before. */
  predicate ActiveRun(acts: seq<Activity>, today: int, k: nat) {
    (forall d :: today - k < d <= today ==> ActiveOn(acts, d)) && !ActiveOn(acts, today - k)
  }

  lemma ActiveOnDates(acts: seq<Activity>, d: int)
    ensures ActiveOn(acts, d) <==> d in ActivityDates(acts)
  {
    var days := DaysOf(acts);
    if ActiveOn(acts, d) {
      var i :| 0 <= i < |acts| && Day(acts[i].date) == d;
      assert days[i] == d;
    }
    if d in days {
      var i :| 0 <= i < |days| && days[i] == d;
      assert Day(acts[i].date) == d;
    }
  }

  /** Without activities dated after today, the streak is `k` exactly when
      today and the `k - 1` days before it all have activities and the day
      before those has none. */
  lemma StreakCharacterized(acts: seq<Activity>, today: int, k: nat)
    requires forall i :: 0 <= i < |acts| ==> Day(acts[i].date) <= today
    ensures Streak(acts, today) == k <==> ActiveRun(acts, today, k)
  {
    var s := ActivityDates(acts);
    forall x | x in s ensures x <= today {
      ActiveOnDates(acts, x);
    }
    forall d ensures ActiveOn(acts, d) <==> d in s {
      ActiveOnDates(acts, d);
    }
    if acts != [] {
      RunCharacterized(s, today);
    }
    var n := Streak(acts, today);
    assert ActiveRun(acts, today, n);
    if ActiveRun(acts, today, k) {
      assert !ActiveOn(acts, today - k) && !ActiveOn(acts, today - n);
    }
  }

  /** An activity dated after today sorts first and forces a streak of 0. */
  lemma FutureActivityForcesZero(acts: seq<Activity>, today: int, i: int)
    requires 0 <= i < |acts| && Day(acts[i].date) > today
    ensures Streak(acts, today) == 0
  {
    var s := ActivityDates(acts);
    ActiveOnDates(acts, Day(acts[i].date));
    HeadIsLargest(s, Day(acts[i].date));
  }

  /** No activity today: streak 0, whatever the days before hold. */
  lemma NoActivityTodayIsZero(acts: seq<Activity>, today: int)
    requires !ActiveOn(acts, today)
    ensures Streak(acts, today) == 0
  {
    ActiveOnDates(acts, today);
    var s := ActivityDates(acts);
    assert s != [] ==> s[0] in s;
  }

  /** The streak never exceeds the number of distinct activity days. */
  lemma StreakAtMostActiveDays(acts: seq<Activity>, today: int)
    ensures Streak(acts, today) <= |ActivityDates(acts)| <= |acts|
  {
  }
}
