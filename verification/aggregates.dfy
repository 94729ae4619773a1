/** The aggregates computed from a payload: `_avg`, `_daily_groups`,
    `weekly_avg_temperature_at_2pm` and `weekly_avg_pm25`. Sums and means are
    exact; only the final number is rounded to one decimal place. */
module Aggregates {

  import opened Wrappers
  import opened Text
  import opened Rounding
  import opened Series

  const TwoPm: nat := 14

  /** The suffix `_values_at_hour` matches for `hour=14`. */
  lemma TwoPmSuffix()
    ensures HourSuffix(TwoPm) == "T14:00"
  {
    assert NatDigits(14) == NatDigits(1) + [DigitChar(4)];
  }

  function Sum(s: seq<real>): real {
    if s == [] then 0.0 else Sum(s[..|s| - 1]) + s[|s| - 1]
  }

  function Mean(s: seq<real>): real
    requires |s| > 0
  {
    Sum(s) / |s| as real
  }

  lemma {:induction false} SumWithin(s: seq<real>, lo: real, hi: real)
    requires forall i :: 0 <= i < |s| ==> lo <= s[i] <= hi
    ensures lo * |s| as real <= Sum(s) <= hi * |s| as real
  {
    if s != [] {
      SumWithin(s[..|s| - 1], lo, hi);
    }
  }

  /** A mean lies between the smallest and the largest of the numbers averaged. */
  lemma MeanWithin(s: seq<real>, lo: real, hi: real)
    requires |s| > 0
    requires forall i :: 0 <= i < |s| ==> lo <= s[i] <= hi
    ensures lo <= Mean(s) <= hi
  {
    SumWithin(s, lo, hi);
    var n := |s| as real;
    assert Sum(s) / n >= lo * n / n;
    assert Sum(s) / n <= hi * n / n;
  }

  /** `_avg(nums)`: `None` exactly for an empty list, otherwise the mean to one decimal place. */
  function Avg(nums: seq<real>): (r: Option<real>)
    ensures r.None? <==> nums == []
    ensures r.Some? ==> -0.05 <= r.value - Sum(nums) / |nums| as real <= 0.05
    ensures r.Some? ==> IsRound1(Mean(nums), r.value)
  {
    if nums == [] then None else Some(Round1(Mean(nums)))
  }

  /** If every number lies in `[lo, hi]`, so does the average, up to the rounding half-step. */
  lemma AvgWithin(nums: seq<real>, lo: real, hi: real)
    requires nums != []
    requires forall i :: 0 <= i < |nums| ==> lo <= nums[i] <= hi
    ensures lo - 0.05 <= Avg(nums).value <= hi + 0.05
  {
    MeanWithin(nums, lo, hi);
  }

  /** The same bound, for whichever list the average is taken of. */
  lemma AvgWithinWhenSome(nums: seq<real>, lo: real, hi: real)
    ensures (Avg(nums).Some? && forall j :: 0 <= j < |nums| ==> lo <= nums[j] <= hi)
      ==> lo - 0.05 <= Avg(nums).value <= hi + 0.05
  {
    if nums != [] && forall j :: 0 <= j < |nums| ==> lo <= nums[j] <= hi {
      AvgWithin(nums, lo, hi);
    }
  }

  /** `weekly_avg_temperature_at_2pm(weather_json)`: no value without a present 2 PM reading,
      otherwise the mean of the 2 PM readings to one decimal place. */
  function WeeklyAvgTemperatureAt2pm(p: Payload): (r: Option<real>)
    ensures r.None? <==>
      forall i :: 0 <= i < |HourlySeries(p, TemperatureField)|
        && EndsWith(HourlySeries(p, TemperatureField)[i].time, HourSuffix(TwoPm))
        ==> HourlySeries(p, TemperatureField)[i].value.None?
    ensures r.Some? ==>
      && ValuesAtHour(p, TemperatureField, TwoPm) != []
      && -0.05 <= r.value - Mean(ValuesAtHour(p, TemperatureField, TwoPm)) <= 0.05
      && IsRound1(Mean(ValuesAtHour(p, TemperatureField, TwoPm)), r.value)
  {
    Avg(ValuesAtHour(p, TemperatureField, TwoPm))
  }

  /** The weekly 2 PM average stays within the range of the 2 PM readings. */
  lemma WeeklyTemperatureWithin(p: Payload, lo: real, hi: real)
    ensures var vals := ValuesAtHour(p, TemperatureField, TwoPm);
      (WeeklyAvgTemperatureAt2pm(p).Some? && forall j :: 0 <= j < |vals| ==> lo <= vals[j] <= hi)
        ==> lo - 0.05 <= WeeklyAvgTemperatureAt2pm(p).value <= hi + 0.05
  {
    AvgWithinWhenSome(ValuesAtHour(p, TemperatureField, TwoPm), lo, hi);
  }

  /** The calendar-day key of a timestamp: `t.split("T", 1)[0]`. */
  function DayOf(t: string): (day: string)
    ensures StartsWith(t, day) && 'T' !in day
    ensures |day| == |t| || t[|day|] == 'T'
  {
    BeforeFirst(t, 'T')
  }

  /** The present readings of day `day`, in series order. */
  function ReadingsOn(s: Series, day: string): seq<real> {
    Keep(s, t => DayOf(t) == day)
  }

  datatype DayGroup = DayGroup(day: string, values: seq<real>)

  /** The keys of a dict are distinct. */
  ghost predicate DistinctDays(g: seq<DayGroup>) {
    forall i, j :: 0 <= i < j < |g| ==> g[i].day != g[j].day
  }

  ghost predicate HasDay(g: seq<DayGroup>, day: string) {
    exists k :: 0 <= k < |g| && g[k].day == day
  }

  /** `out[day].append(v)` on a `defaultdict(list)` that keeps insertion order. */
  function AddReading(g: seq<DayGroup>, day: string, v: real): (r: seq<DayGroup>)
    requires DistinctDays(g)
    ensures DistinctDays(r)
    ensures |r| == if HasDay(g, day) then |g| else |g| + 1
    ensures forall k :: 0 <= k < |g| ==>
      r[k] == DayGroup(g[k].day, g[k].values + if g[k].day == day then [v] else [])
    ensures !HasDay(g, day) ==> r[|g|] == DayGroup(day, [v])
  {
    if g == [] then [DayGroup(day, [v])]
    else if g[0].day == day then
      assert !HasDay(g[1..], day);
      [DayGroup(day, g[0].values + [v])] + g[1..]
    else
      var rest := AddReading(g[1..], day, v);
      assert HasDay(g, day) <==> HasDay(g[1..], day);
      [g[0]] + rest
  }

  /** `_daily_groups(series)`: present readings grouped by day, days in order of first appearance. */
  function DailyGroups(s: Series): (g: seq<DayGroup>)
    ensures DistinctDays(g)
  {
    if s == [] then []
    else
      var last := s[|s| - 1];
      var g := DailyGroups(s[..|s| - 1]);
      if last.value.None? then g else AddReading(g, DayOf(last.time), last.value.value)
  }

  /** What grouping by day means: the keys are exactly the days that have a present
      reading, and each day holds exactly that day's present readings, in series order. */
  ghost predicate GroupsBy(s: Series, g: seq<DayGroup>) {
    && (forall day :: HasDay(g, day) <==>
         exists i :: 0 <= i < |s| && s[i].value.Some? && DayOf(s[i].time) == day)
    && (forall k :: 0 <= k < |g| ==> g[k].values == ReadingsOn(s, g[k].day))
    && (forall k :: 0 <= k < |g| ==> g[k].values != [])
  }

  lemma ReadingsOnSnoc(s: Series, x: Reading, day: string)
    ensures ReadingsOn(s + [x], day)
      == ReadingsOn(s, day) + if DayOf(x.time) == day && x.value.Some? then [x.value.value] else []
  {
    assert (s + [x])[..|s|] == s;
  }

  lemma {:induction false} DailyGroupsSpec(s: Series)
    ensures GroupsBy(s, DailyGroups(s))
    decreases |s|
  {
    if s != [] {
      var prefix := s[..|s| - 1];
      var last := s[|s| - 1];
      assert s == prefix + [last];
      var g := DailyGroups(prefix);
      DailyGroupsSpec(prefix);
      forall day
        ensures ReadingsOn(s, day)
          == ReadingsOn(prefix, day) + (if DayOf(last.time) == day && last.value.Some? then [last.value.value] else [])
      {
        ReadingsOnSnoc(prefix, last, day);
      }
      if last.value.Some? {
        DailyGroupsStep(prefix, last, g);
      }
    }
  }

  lemma AddReadingDays(g: seq<DayGroup>, day: string, v: real)
    requires DistinctDays(g)
    ensures forall d :: HasDay(AddReading(g, day, v), d) <==> HasDay(g, d) || d == day
  {
    var r := AddReading(g, day, v);
    forall d
      ensures HasDay(r, d) <==> HasDay(g, d) || d == day
    {
      if HasDay(g, d) {
        var k :| 0 <= k < |g| && g[k].day == d;
        assert r[k].day == d;
      }
      if d == day && !HasDay(g, day) {
        assert r[|g|].day == d;
      }
      if HasDay(r, d) {
        var k :| 0 <= k < |r| && r[k].day == d;
        if k < |g| {
          assert g[k].day == d;
        }
      }
    }
  }

  lemma DailyGroupsStep(prefix: Series, last: Reading, g: seq<DayGroup>)
    requires last.value.Some?
    requires DistinctDays(g) && GroupsBy(prefix, g)
    requires forall day ::
      ReadingsOn(prefix + [last], day)
        == ReadingsOn(prefix, day) + (if DayOf(last.time) == day then [last.value.value] else [])
    ensures GroupsBy(prefix + [last], AddReading(g, DayOf(last.time), last.value.value))
  {
    StepDays(prefix, last, g);
    StepValues(prefix, last, g);
  }

  /** After a present reading, the days with a group are the old ones and the reading's day. */
  lemma StepDays(prefix: Series, last: Reading, g: seq<DayGroup>)
    requires last.value.Some?
    requires DistinctDays(g) && GroupsBy(prefix, g)
    ensures var s, day := prefix + [last], DayOf(last.time);
      forall d :: HasDay(AddReading(g, day, last.value.value), d) <==>
        exists i :: 0 <= i < |s| && s[i].value.Some? && DayOf(s[i].time) == d
  {
    var s := prefix + [last];
    var day := DayOf(last.time);
    AddReadingDays(g, day, last.value.value);
    forall d
      ensures (exists i :: 0 <= i < |s| && s[i].value.Some? && DayOf(s[i].time) == d)
        <==> HasDay(g, d) || d == day
    {
      if exists i :: 0 <= i < |s| && s[i].value.Some? && DayOf(s[i].time) == d {
        var i :| 0 <= i < |s| && s[i].value.Some? && DayOf(s[i].time) == d;
        if i < |prefix| {
          assert prefix[i] == s[i];
        }
      }
      if HasDay(g, d) {
        var i :| 0 <= i < |prefix| && prefix[i].value.Some? && DayOf(prefix[i].time) == d;
        assert s[i] == prefix[i];
      }
      if d == day {
        assert s[|prefix|] == last;
      }
    }
  }

  /** After a present reading, every group holds exactly its day's readings and is non-empty. */
  lemma StepValues(prefix: Series, last: Reading, g: seq<DayGroup>)
    requires last.value.Some?
    requires DistinctDays(g) && GroupsBy(prefix, g)
    requires forall day ::
      ReadingsOn(prefix + [last], day)
        == ReadingsOn(prefix, day) + (if DayOf(last.time) == day then [last.value.value] else [])
    ensures var r := AddReading(g, DayOf(last.time), last.value.value);
      forall k :: 0 <= k < |r| ==> r[k].values == ReadingsOn(prefix + [last], r[k].day) && r[k].values != []
  {
    var s := prefix + [last];
    var day := DayOf(last.time);
    var r := AddReading(g, day, last.value.value);
    forall k | 0 <= k < |r|
      ensures r[k].values == ReadingsOn(s, r[k].day) && r[k].values != []
    {
      if k == |g| {
        KeepEmptyIff(prefix, t => DayOf(t) == day);
      }
    }
  }

  /** The per-day means, skipping a day with no readings (`if values:`). */
  function DailyMeans(g: seq<DayGroup>): (r: seq<real>)
    ensures |r| <= |g|
    ensures (forall k :: 0 <= k < |g| ==> g[k].values != []) ==> |r| == |g|
    ensures forall x :: x in r ==> exists k :: 0 <= k < |g| && g[k].values != [] && x == Mean(g[k].values)
    ensures (forall k :: 0 <= k < |g| ==> g[k].values != []) ==>
      forall k :: 0 <= k < |g| ==> r[k] == Mean(g[k].values)
  {
    if g == [] then []
    else (if g[0].values != [] then [Mean(g[0].values)] else []) + DailyMeans(g[1..])
  }

  /** The days that have a present reading, each listed once. */
  function Days(s: Series): (ds: seq<string>)
    ensures forall j, k :: 0 <= j < k < |ds| ==> ds[j] != ds[k]
    ensures forall d :: d in ds <==> exists i :: 0 <= i < |s| && s[i].value.Some? && DayOf(s[i].time) == d
  {
    if s == [] then []
    else
      var n := |s| - 1;
      var front := Days(s[..n]);
      assert forall i :: 0 <= i < n ==> s[..n][i] == s[i];
      if s[n].value.Some? && DayOf(s[n].time) !in front then front + [DayOf(s[n].time)] else front
  }

  /** Every listed day has at least one present reading. */
  lemma DaysHaveReadings(s: Series)
    ensures forall k :: 0 <= k < |Days(s)| ==> ReadingsOn(s, Days(s)[k]) != []
  {
    forall k | 0 <= k < |Days(s)|
      ensures ReadingsOn(s, Days(s)[k]) != []
    {
      var day := Days(s)[k];
      assert day in Days(s);
      KeepEmptyIff(s, t => DayOf(t) == day);
    }
  }

  /** The mean of each day's present readings, one per day. */
  function DayMeans(s: Series): (r: seq<real>)
    ensures |r| == |Days(s)|
  {
    DaysHaveReadings(s);
    seq(|Days(s)|, k requires 0 <= k < |Days(s)| => Mean(ReadingsOn(s, Days(s)[k])))
  }

  /** `_daily_groups` lists the days in the same order as `Days`. */
  lemma {:induction false} GroupDaysAreDays(s: Series)
    ensures |DailyGroups(s)| == |Days(s)|
    ensures forall k :: 0 <= k < |Days(s)| ==> DailyGroups(s)[k].day == Days(s)[k]
  {
    if s != [] {
      var n := |s| - 1;
      var prefix := s[..n];
      GroupDaysAreDays(prefix);
      var g := DailyGroups(prefix);
      if s[n].value.Some? {
        var day := DayOf(s[n].time);
        assert HasDay(g, day) <==> day in Days(prefix) by {
          if HasDay(g, day) {
            var k :| 0 <= k < |g| && g[k].day == day;
            assert Days(prefix)[k] == day;
          }
          if day in Days(prefix) {
            var k :| 0 <= k < |Days(prefix)| && Days(prefix)[k] == day;
            assert g[k].day == day;
          }
        }
      }
    }
  }

  /** The per-day means of the groups are the means of each day's readings. */
  lemma DailyMeansAreDayMeans(s: Series)
    ensures DailyMeans(DailyGroups(s)) == DayMeans(s)
  {
    var g := DailyGroups(s);
    DailyGroupsSpec(s);
    GroupDaysAreDays(s);
  }

  /** `weekly_avg_pm25(air_json)`: no value without a present reading, otherwise the mean over
      the days with a reading of each day's mean, to one decimal place, so each day weighs the same. */
  function WeeklyAvgPm25(p: Payload): (r: Option<real>)
    ensures r.None? <==>
      forall i :: 0 <= i < |HourlySeries(p, Pm25Field)| ==> HourlySeries(p, Pm25Field)[i].value.None?
    ensures r.Some? ==>
      && DayMeans(HourlySeries(p, Pm25Field)) != []
      && -0.05 <= r.value - Mean(DayMeans(HourlySeries(p, Pm25Field))) <= 0.05
      && IsRound1(Mean(DayMeans(HourlySeries(p, Pm25Field))), r.value)
  {
    var s := HourlySeries(p, Pm25Field);
    var g := DailyGroups(s);
    DailyGroupsSpec(s);
    DailyMeansAreDayMeans(s);
    assert g == [] <==> forall i :: 0 <= i < |s| ==> s[i].value.None? by {
      if g != [] {
        assert HasDay(g, g[0].day);
      }
      if exists i :: 0 <= i < |s| && s[i].value.Some? {
        var i :| 0 <= i < |s| && s[i].value.Some?;
        assert HasDay(g, DayOf(s[i].time));
      }
    }
    Avg(DailyMeans(g))
  }

  /** Every present reading of `s` lies in `[lo, hi]`. */
  predicate InRange(s: Series, lo: real, hi: real) {
    forall i | 0 <= i < |s| && s[i].value.Some? :: lo <= s[i].value.value <= hi
  }

  /** If every PM2.5 reading lies in `[lo, hi]`, so does the weekly value, up to the rounding half-step. */
  lemma WeeklyPm25Within(p: Payload, lo: real, hi: real)
    ensures WeeklyAvgPm25(p).Some? && InRange(HourlySeries(p, Pm25Field), lo, hi)
        ==> lo - 0.05 <= WeeklyAvgPm25(p).value <= hi + 0.05
  {
    var s := HourlySeries(p, Pm25Field);
    if WeeklyAvgPm25(p).Some? && InRange(s, lo, hi) {
      var g := DailyGroups(s);
      DailyGroupsSpec(s);
      forall k | 0 <= k < |g| && g[k].values != []
        ensures lo <= Mean(g[k].values) <= hi
      {
        var vs := g[k].values;
        forall j | 0 <= j < |vs|
          ensures lo <= vs[j] <= hi
        {
          assert vs[j] in ReadingsOn(s, g[k].day);
        }
        MeanWithin(vs, lo, hi);
      }
      var means := DailyMeans(g);
      assert forall j :: 0 <= j < |means| ==> means[j] in means;
      AvgWithin(means, lo, hi);
    }
  }

  /** Days weigh equally: readings 10 and 20 on one day and 30 on the next give
      (15 + 30) / 2 = 22.5, not the pooled mean (10 + 20 + 30) / 3 = 20. */
  lemma EachDayWeighsEqually()
    ensures
      var p := Payload(Some(Hourly(Some(ExampleTimes()), map[Pm25Field := [Some(10.0), Some(20.0), Some(30.0)]])));
      WeeklyAvgPm25(p) == Some(22.5) && Avg([10.0, 20.0, 30.0]) == Some(20.0)
  {
    var p := Payload(Some(Hourly(Some(ExampleTimes()), map[Pm25Field := [Some(10.0), Some(20.0), Some(30.0)]])));
    var t := ExampleTimes();
    var s := [Reading(t[0], Some(10.0)), Reading(t[1], Some(20.0)), Reading(t[2], Some(30.0))];
    var g := [DayGroup("2025-08-13", [10.0, 20.0]), DayGroup("2025-08-14", [30.0])];
    ExampleSeries();
    ExampleGroups();
    ExampleMeans();
    assert WeeklyAvgPm25(p) == Avg(DailyMeans(g));
    assert Avg([15.0, 30.0]) == Some(22.5) by {
      MeanOfTwo(15.0, 30.0);
      AvgExact([15.0, 30.0], 225);
    }
    assert Avg([10.0, 20.0, 30.0]) == Some(20.0) by {
      MeanOfThree(10.0, 20.0, 30.0);
      AvgExact([10.0, 20.0, 30.0], 200);
    }
  }

  lemma AvgExact(s: seq<real>, m: int)
    requires |s| > 0 && Mean(s) == m as real / 10.0
    ensures Avg(s) == Some(m as real / 10.0)
  {
    Round1Exact(m);
  }

  lemma MeanOfTwo(a: real, b: real)
    ensures Mean([a, b]) == (a + b) / 2.0
  {
    SumOfTwo(a, b);
    assert |[a, b]| as real == 2.0;
  }

  lemma MeanOfThree(a: real, b: real, c: real)
    ensures Mean([a, b, c]) == (a + b + c) / 3.0
  {
    SumOfThree(a, b, c);
    assert |[a, b, c]| as real == 3.0;
  }

  lemma SumOfTwo(a: real, b: real)
    ensures Sum([a, b]) == a + b
  {
    assert [a, b][..1] == [a];
    assert [a][..0] == [];
    assert Sum([a]) == Sum([]) + a;
    assert Sum([a, b]) == Sum([a]) + b;
  }

  lemma SumOfThree(a: real, b: real, c: real)
    ensures Sum([a, b, c]) == a + b + c
  {
    assert [a, b, c][..2] == [a, b];
    SumOfTwo(a, b);
  }

  lemma ExampleMeans()
    ensures DailyMeans([DayGroup("2025-08-13", [10.0, 20.0]), DayGroup("2025-08-14", [30.0])]) == [15.0, 30.0]
  {
    var g := [DayGroup("2025-08-13", [10.0, 20.0]), DayGroup("2025-08-14", [30.0])];
    assert g[1..][1..] == [];
    SumOfTwo(10.0, 20.0);
    assert [30.0][..0] == [];
  }

  lemma ExampleSeries()
    ensures
      var t := ExampleTimes();
      var p := Payload(Some(Hourly(Some(t), map[Pm25Field := [Some(10.0), Some(20.0), Some(30.0)]])));
      HourlySeries(p, Pm25Field) == [Reading(t[0], Some(10.0)), Reading(t[1], Some(20.0)), Reading(t[2], Some(30.0))]
  {
  }

  function ExampleTimes(): seq<string> {
    ["2025-08-13" + "T" + "00:00", "2025-08-13" + "T" + "01:00", "2025-08-14" + "T" + "00:00"]
  }

  lemma ExampleGroups()
    ensures
      var t := ExampleTimes();
      DailyGroups([Reading(t[0], Some(10.0)), Reading(t[1], Some(20.0)), Reading(t[2], Some(30.0))])
        == [DayGroup("2025-08-13", [10.0, 20.0]), DayGroup("2025-08-14", [30.0])]
  {
    var t := ExampleTimes();
    var d1 := "2025-08-13";
    var d2 := "2025-08-14";
    BeforeFirstJoin(d1, "00:00", 'T');
    BeforeFirstJoin(d1, "01:00", 'T');
    BeforeFirstJoin(d2, "00:00", 'T');
    var s := [Reading(t[0], Some(10.0)), Reading(t[1], Some(20.0)), Reading(t[2], Some(30.0))];
    assert DayOf(s[0].time) == d1 && DayOf(s[1].time) == d1 && DayOf(s[2].time) == d2;
    assert d1 != d2 by {
      assert d1[9] != d2[9];
    }
    ThreeReadingsTwoDays(s[0], s[1], s[2], 10.0, 20.0, 30.0);
  }

  lemma TwoReadingsOneDay(r0: Reading, r1: Reading, a: real, b: real)
    requires r0.value == Some(a) && r1.value == Some(b) && DayOf(r0.time) == DayOf(r1.time)
    ensures DailyGroups([r0, r1]) == [DayGroup(DayOf(r0.time), [a, b])]
  {
    var d := DayOf(r0.time);
    assert [r0, r1][..1] == [r0];
    assert [r0][..0] == [];
    assert DailyGroups([r0]) == [DayGroup(d, [a])];
    assert [DayGroup(d, [a])][1..] == [];
    assert [a] + [b] == [a, b];
  }

  lemma ThreeReadingsTwoDays(r0: Reading, r1: Reading, r2: Reading, a: real, b: real, c: real)
    requires r0.value == Some(a) && r1.value == Some(b) && r2.value == Some(c)
    requires DayOf(r0.time) == DayOf(r1.time) != DayOf(r2.time)
    ensures DailyGroups([r0, r1, r2]) == [DayGroup(DayOf(r0.time), [a, b]), DayGroup(DayOf(r2.time), [c])]
  {
    TwoReadingsOneDay(r0, r1, a, b);
    assert [r0, r1, r2][..2] == [r0, r1];
  }
}
