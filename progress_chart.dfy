/** The progress tab: the last seven days' minutes and calories, one bucket
    per day, and the activity-type breakdown with its colours. */
module ProgressChart {
  import opened Js
  import opened Entities
  import StatsCards

  /** `n` consecutive day numbers starting at `lo`. */
  function Consecutive(lo: int, n: nat): (r: seq<int>)
    ensures |r| == n
    ensures forall k :: 0 <= k < n ==> r[k] == lo + k
  {
    seq(n, k requires 0 <= k < n => lo + k)
  }

  /** `getLast7Days`: for `i` from 6 down to 0, the day of `now` minus `i`
      days, oldest first and ending today. */
  method Last7Days(now: int) returns (days: seq<int>)
    ensures days == Consecutive(Day(now) - 6, 7)
    ensures |days| == 7 && days[6] == Day(now)
    ensures forall k :: 0 <= k < 6 ==> days[k + 1] == days[k] + 1
  {
    days := [];
    var i := 6;
    while i >= 0
      invariant -1 <= i <= 6
      invariant days == Consecutive(Day(now) - 6, 6 - i)
    {
      DayShift(now, i);
      days := days + [Day(now - i * DayMs)];
      i := i - 1;
    }
  }

  /** Which figure a daily chart adds up. */
  datatype Metric = Minutes | Calories

  function ValueOf(a: Activity, m: Metric): int {
    match m
    case Minutes => a.duration
    case Calories => StatsCards.CaloriesOf(a)
  }

  /** The total of `m` over the activities dated on day `d`
      (`activity.date.startsWith(day)`). */
  function DayTotal(acts: seq<Activity>, d: int, m: Metric): int {
    if acts == [] then 0
    else (if Day(acts[0].date) == d then ValueOf(acts[0], m) else 0) + DayTotal(acts[1..], d, m)
  }

  /** One bucket per listed day: `dailyMinutes` and `dailyCalories`. */
  function DailyTotals(acts: seq<Activity>, days: seq<int>, m: Metric): (r: seq<int>)
    ensures |r| == |days|
    ensures forall k :: 0 <= k < |days| ==> r[k] == DayTotal(acts, days[k], m)
  {
    seq(|days|, k requires 0 <= k < |days| => DayTotal(acts, days[k], m))
  }

  function Sum(s: seq<int>): int {
    if s == [] then 0 else s[0] + Sum(s[1..])
  }

  /** The independent definition: the total of `m` over the activities dated
      from day `lo` to day `hi`, both included. */
  function WindowTotal(acts: seq<Activity>, lo: int, hi: int, m: Metric): int {
    if acts == [] then 0
    else (if lo <= Day(acts[0].date) <= hi then ValueOf(acts[0], m) else 0) + WindowTotal(acts[1..], lo, hi, m)
  }

  lemma {:induction false} WindowSplit(acts: seq<Activity>, lo: int, hi: int, m: Metric)
    requires lo <= hi
    ensures WindowTotal(acts, lo, hi, m) == DayTotal(acts, lo, m) + WindowTotal(acts, lo + 1, hi, m)
  {
    if acts != [] {
      WindowSplit(acts[1..], lo, hi, m);
    }
  }

  lemma {:induction false} EmptyWindow(acts: seq<Activity>, lo: int, hi: int, m: Metric)
    requires hi < lo
    ensures WindowTotal(acts, lo, hi, m) == 0
  {
    if acts != [] {
      EmptyWindow(acts[1..], lo, hi, m);
    }
  }

  /** The buckets of `n` consecutive days add up to the total over those days:
      every activity in the window lands in exactly one bucket. */
  lemma {:induction false} BucketsCoverWindow(acts: seq<Activity>, lo: int, n: nat, m: Metric)
    ensures Sum(DailyTotals(acts, Consecutive(lo, n), m)) == WindowTotal(acts, lo, lo + n - 1, m)
    decreases n
  {
    if n == 0 {
      EmptyWindow(acts, lo, lo - 1, m);
    } else {
      var b := DailyTotals(acts, Consecutive(lo, n), m);
      BucketsCoverWindow(acts, lo + 1, n - 1, m);
      assert b[1..] == DailyTotals(acts, Consecutive(lo + 1, n - 1), m);
      WindowSplit(acts, lo, lo + n - 1, m);
    }
  }

  /** The chart's seven buckets add up to the total of the last seven days. */
  lemma WeekBucketsSum(acts: seq<Activity>, now: int, m: Metric)
    ensures Sum(DailyTotals(acts, Consecutive(Day(now) - 6, 7), m)) == WindowTotal(acts, Day(now) - 6, Day(now), m)
  {
    BucketsCoverWindow(acts, Day(now) - 6, 7, m);
  }

  /** An activity dated outside the listed days changes no bucket. */
  lemma {:induction false} OutsideDaysChangeNothing(acts: seq<Activity>, a: Activity, days: seq<int>, m: Metric)
    requires Day(a.date) !in days
    ensures DailyTotals([a] + acts, days, m) == DailyTotals(acts, days, m)
  {
    forall k | 0 <= k < |days| ensures DayTotal([a] + acts, days[k], m) == DayTotal(acts, days[k], m) {
      assert ([a] + acts)[1..] == acts;
    }
  }

  // ---------------------------------------------------------------------------
  // Activity types

  /** The distinct activity types in order of first appearance: the key order
      of `typeCount`. */
  function DistinctKinds(acts: seq<Activity>): (r: seq<string>)
    ensures |r| <= |acts|
  {
    if acts == [] then []
    else
      var prev := DistinctKinds(acts[..|acts| - 1]);
      var last := acts[|acts| - 1].kind;
      if last in prev then prev else prev + [last]
  }

  /** Each type that occurs is listed, nothing else is, and none twice. */
  lemma {:induction false} DistinctKindsListsEachOnce(acts: seq<Activity>)
    ensures forall x :: x in DistinctKinds(acts) <==> exists i :: 0 <= i < |acts| && acts[i].kind == x
    ensures forall i, j :: 0 <= i < j < |DistinctKinds(acts)| ==> DistinctKinds(acts)[i] != DistinctKinds(acts)[j]
  {
    if acts != [] {
      var init := acts[..|acts| - 1];
      DistinctKindsListsEachOnce(init);
      assert forall i :: 0 <= i < |init| ==> init[i] == acts[i];
      var prev := DistinctKinds(init);
      var last := acts[|acts| - 1].kind;
      if last !in prev {
        var r := prev + [last];
        forall i, j | 0 <= i < j < |r| ensures r[i] != r[j] {
          if j == |prev| {
            assert r[i] == prev[i] && prev[i] in prev && r[j] == last;
          } else {
            assert r[i] == prev[i] && r[j] == prev[j];
          }
        }
      }
    }
  }

  /** How many activities have type `kind`. */
  function KindCount(acts: seq<Activity>, kind: string): nat {
    if acts == [] then 0
    else KindCount(acts[..|acts| - 1], kind) + (if acts[|acts| - 1].kind == kind then 1 else 0)
  }

  /** The doughnut's nine colours. */
  const Palette: seq<string> := [
    "#ff6b6b", "#4ecdc4", "#45b7d1", "#96ceb4",
    "#feca57", "#ff9ff3", "#54a0ff", "#5f27cd", "#c44569"]

  /** What the doughnut is drawn from. */
  datatype TypeChart = TypeChart(labels: seq<string>, counts: seq<int>, colors: seq<string>)

  /** `getActivityTypeData`: count the activities of each type in a
      dictionary, then read off its keys, its values and one colour per key
      (types past the ninth get none). */
  method ActivityTypeData(acts: seq<Activity>) returns (chart: TypeChart)
    ensures chart.labels == DistinctKinds(acts)
    ensures |chart.counts| == |chart.labels|
    ensures forall i :: 0 <= i < |chart.labels| ==> chart.counts[i] == KindCount(acts, chart.labels[i])
    ensures |chart.colors| == if |chart.labels| < 9 then |chart.labels| else 9
    ensures chart.colors <= Palette
  {
    var typeCount: map<string, int> := map[];
    var keys: seq<string> := [];
    var i := 0;
    while i < |acts|
      invariant 0 <= i <= |acts|
      invariant Tallied(acts[..i], typeCount, keys)
    {
      var kind := acts[i].kind;
      var current := if kind in typeCount then typeCount[kind] else 0;
      var nextKeys := if kind in typeCount then keys else keys + [kind];
      TallyPreserved(acts, i, typeCount, keys);
      keys := nextKeys;
      typeCount := typeCount[kind := current + 1];
      i := i + 1;
    }
    assert acts[..i] == acts;
    var counts := seq(|keys|, j requires 0 <= j < |keys| => typeCount[keys[j]]);
    var colors := if |keys| < |Palette| then Palette[..|keys|] else Palette;
    chart := TypeChart(keys, counts, colors);
  }

  /** The loop's state after reading `acts`: the keys of `typeCount`, in the
      order they were added, are the distinct types, and each maps to its count. */
  ghost predicate Tallied(acts: seq<Activity>, typeCount: map<string, int>, keys: seq<string>) {
    keys == DistinctKinds(acts)
    && (forall k :: k in typeCount <==> k in keys)
    && (forall k :: k in typeCount ==> typeCount[k] == KindCount(acts, k))
  }

  /** One turn of the counting loop keeps `Tallied`. */
  lemma TallyPreserved(acts: seq<Activity>, i: nat, typeCount: map<string, int>, keys: seq<string>)
    requires i < |acts| && Tallied(acts[..i], typeCount, keys)
    ensures var kind := acts[i].kind;
      var current := if kind in typeCount then typeCount[kind] else 0;
      Tallied(acts[..i + 1], typeCount[kind := current + 1], if kind in typeCount then keys else keys + [kind])
  {
    TallyStep(acts, i);
    var kind := acts[i].kind;
    if kind !in typeCount {
      DistinctKindsListsEachOnce(acts[..i]);
      KindCountAbsent(acts[..i], kind);
    }
  }

  /** What one more activity does to the distinct types and to the counts. */
  lemma TallyStep(acts: seq<Activity>, i: nat)
    requires i < |acts|
    ensures var kinds := DistinctKinds(acts[..i]);
      DistinctKinds(acts[..i + 1]) == if acts[i].kind in kinds then kinds else kinds + [acts[i].kind]
    ensures forall k :: KindCount(acts[..i + 1], k) == KindCount(acts[..i], k) + (if acts[i].kind == k then 1 else 0)
  {
    var pre := acts[..i + 1];
    assert pre[..|pre| - 1] == acts[..i];
    assert pre[|pre| - 1] == acts[i];
  }

  /** Every listed type has at least one activity. */
  lemma {:induction false} ListedKindsOccur(acts: seq<Activity>, kind: string)
    requires kind in DistinctKinds(acts)
    ensures KindCount(acts, kind) >= 1
  {
    DistinctKindsListsEachOnce(acts);
    var i :| 0 <= i < |acts| && acts[i].kind == kind;
    KindCountPositive(acts, i);
  }

  lemma {:induction false} KindCountPositive(acts: seq<Activity>, i: int)
    requires 0 <= i < |acts|
    ensures KindCount(acts, acts[i].kind) >= 1
  {
    if i < |acts| - 1 {
      KindCountPositive(acts[..|acts| - 1], i);
    }
  }

  /** The counts of the given types, added up. */
  function CountsOver(acts: seq<Activity>, kinds: seq<string>): int {
    if kinds == [] then 0 else KindCount(acts, kinds[0]) + CountsOver(acts, kinds[1..])
  }

  /** A type that occurs among `kinds` once adds one to the sum, others none. */
  lemma {:induction false} CountsOverStep(init: seq<Activity>, a: Activity, kinds: seq<string>)
    requires forall i, j :: 0 <= i < j < |kinds| ==> kinds[i] != kinds[j]
    ensures CountsOver(init + [a], kinds) == CountsOver(init, kinds) + (if a.kind in kinds then 1 else 0)
  {
    if kinds != [] {
      var s := init + [a];
      assert s[..|s| - 1] == init;
      CountsOverStep(init, a, kinds[1..]);
      assert a.kind in kinds <==> a.kind == kinds[0] || a.kind in kinds[1..];
      assert a.kind == kinds[0] ==> a.kind !in kinds[1..];
    }
  }

  lemma {:induction false} CountsOverAppend(acts: seq<Activity>, a: seq<string>, b: seq<string>)
    ensures CountsOver(acts, a + b) == CountsOver(acts, a) + CountsOver(acts, b)
  {
    if a != [] {
      assert (a + b)[1..] == a[1..] + b;
      CountsOverAppend(acts, a[1..], b);
    } else {
      assert a + b == b;
    }
  }

  lemma {:induction false} KindCountAbsent(acts: seq<Activity>, kind: string)
    requires forall i :: 0 <= i < |acts| ==> acts[i].kind != kind
    ensures KindCount(acts, kind) == 0
  {
    if acts != [] {
      KindCountAbsent(acts[..|acts| - 1], kind);
    }
  }

  /** The doughnut's counts add up to the number of activities: each is
      counted under exactly one type. */
  lemma {:induction false} CountsSumToTotal(acts: seq<Activity>)
    ensures CountsOver(acts, DistinctKinds(acts)) == |acts|
  {
    if acts != [] {
      var init := acts[..|acts| - 1];
      var a := acts[|acts| - 1];
      assert acts == init + [a];
      var prev := DistinctKinds(init);
      DistinctKindsListsEachOnce(init);
      CountsSumToTotal(init);
      CountsOverStep(init, a, prev);
      if a.kind !in prev {
        CountsOverAppend(acts, prev, [a.kind]);
        forall i | 0 <= i < |init| ensures init[i].kind != a.kind {
          assert init[i].kind in prev;
        }
        KindCountAbsent(init, a.kind);
        assert CountsOver(acts, [a.kind]) == KindCount(acts, a.kind) + CountsOver(acts, []);
      }
    }
  }
}
