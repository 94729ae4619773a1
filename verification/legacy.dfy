/** The second copy of the two aggregates, used by the periodic job
    (`recommendations/utils.py`). It differs from the service copy: it indexes
    the payload directly (a missing key raises), selects 2 PM readings with a
    substring test on `"14:00"`, indexes the temperature list by the timestamp's
    position, and does not skip a missing 2 PM reading (summing it raises). */
module Legacy {

  import opened Wrappers
  import opened Text
  import opened Rounding
  import opened Series
  import opened Aggregates
  import opened Retry
  import ForecastCache

  /** The exceptions the computations can raise. */
  datatype LegacyError = KeyError | IndexError | TypeError

  /** `data["hourly"]["time"]` and `data["hourly"][field]`; a `null` is treated like a missing key. */
  function Columns(p: Payload, field: string): (r: Result<(seq<string>, seq<Option<real>>), LegacyError>)
    ensures r.Failure? <==> p.hourly.None? || p.hourly.value.time.None? || field !in p.hourly.value.columns
    ensures r.Failure? ==> r.error == KeyError
    ensures r.Success? ==> r.value == (Times(p), Column(p, field))
  {
    if p.hourly.None? || p.hourly.value.time.None? || field !in p.hourly.value.columns then Failure(KeyError)
    else Success((p.hourly.value.time.value, p.hourly.value.columns[field]))
  }

  const TwoPmText: string := "14:00"

  /** `"14:00" in t` */
  predicate HasTwoPmText(t: string) {
    Contains(t, TwoPmText)
  }

  /** The positions `i` of `enumerate(times)` whose timestamp `picked` selects, in increasing order. */
  function Positions(times: seq<string>, picked: string -> bool): (ps: seq<nat>)
    ensures forall j :: 0 <= j < |ps| ==> ps[j] < |times|
    ensures forall j, k :: 0 <= j < k < |ps| ==> ps[j] < ps[k]
    ensures forall i :: i in ps <==> 0 <= i < |times| && picked(times[i])
  {
    if times == [] then []
    else
      var n := |times| - 1;
      var front := Positions(times[..n], picked);
      assert forall i :: 0 <= i < n ==> times[..n][i] == times[i];
      front + (if picked(times[n]) then [n] else [])
  }

  /** `[temps[i] for i, t in enumerate(times) if picked(t)]`: a picked position past the end
      of `temps` raises IndexError. */
  function PickWhere(times: seq<string>, temps: seq<Option<real>>, picked: string -> bool): (r: Result<seq<Option<real>>, LegacyError>)
    ensures r.Failure? <==> exists i :: 0 <= i < |times| && picked(times[i]) && i >= |temps|
    ensures r.Failure? ==> r.error == IndexError
    ensures r.Success? ==> forall x :: x in r.value <==>
      exists i :: 0 <= i < |times| && picked(times[i]) && temps[i] == x
    ensures r.Success? ==> (r.value == [] <==> forall i :: 0 <= i < |times| ==> !picked(times[i]))
  {
    if times == [] then Success([])
    else
      var n := |times| - 1;
      var prefix := times[..n];
      assert forall i :: 0 <= i < n ==> prefix[i] == times[i];
      var front := PickWhere(prefix, temps, picked);
      if front.Failure? then front
      else if !picked(times[n]) then front
      else if n < |temps| then Success(front.value + [temps[n]])
      else Failure(IndexError)
  }

  /** The comprehension lists the readings at the picked positions, one per position, in order. */
  lemma {:induction false} PickWhereEnumerates(times: seq<string>, temps: seq<Option<real>>, picked: string -> bool)
    requires PickWhere(times, temps, picked).Success?
    ensures var r, ps := PickWhere(times, temps, picked).value, Positions(times, picked);
      && |r| == |ps|
      && forall j :: 0 <= j < |ps| ==> ps[j] < |temps| && r[j] == temps[ps[j]]
  {
    if times != [] {
      var n := |times| - 1;
      var prefix := times[..n];
      PickWhereStep(times, temps, picked);
      PickWhereEnumerates(prefix, temps, picked);
      var front, ps := PickWhere(prefix, temps, picked).value, Positions(prefix, picked);
      assert Positions(times, picked) == ps + (if picked(times[n]) then [n] else []);
      if picked(times[n]) {
        IndexedStep(front, ps, temps, n);
      }
    }
  }

  /** Appending the reading at position `n` extends a list that holds the readings at `ps`. */
  lemma IndexedStep(xs: seq<Option<real>>, ps: seq<nat>, temps: seq<Option<real>>, n: nat)
    requires |xs| == |ps| && n < |temps|
    requires forall j :: 0 <= j < |ps| ==> ps[j] < |temps| && xs[j] == temps[ps[j]]
    ensures var xs', ps' := xs + [temps[n]], ps + [n];
      && |xs'| == |ps'|
      && forall j :: 0 <= j < |ps'| ==> ps'[j] < |temps| && xs'[j] == temps[ps'[j]]
  {
  }

  predicate AllPresent(xs: seq<Option<real>>) {
    forall i :: 0 <= i < |xs| ==> xs[i].Some?
  }

  function Present(xs: seq<Option<real>>): (r: seq<real>)
    requires AllPresent(xs)
    ensures |r| == |xs| && forall i :: 0 <= i < |xs| ==> xs[i] == Some(r[i])
  {
    if xs == [] then [] else [xs[0].value] + Present(xs[1..])
  }

  /** Every picked position has a reading in `temps`, so the comprehension does not raise IndexError. */
  predicate PickedInRange(times: seq<string>, temps: seq<Option<real>>, picked: string -> bool) {
    forall i :: 0 <= i < |times| && picked(times[i]) ==> i < |temps|
  }

  /** The comprehension's list holds no `None` exactly when no picked position holds one. */
  lemma PickedAllPresent(times: seq<string>, temps: seq<Option<real>>, picked: string -> bool)
    requires PickWhere(times, temps, picked).Success?
    ensures AllPresent(PickWhere(times, temps, picked).value) <==>
      forall i :: 0 <= i < |times| && picked(times[i]) ==> i < |temps| && temps[i].Some?
  {
    var r, ps := PickWhere(times, temps, picked).value, Positions(times, picked);
    PickWhereEnumerates(times, temps, picked);
    if AllPresent(r) {
      forall i | 0 <= i < |times| && picked(times[i])
        ensures i < |temps| && temps[i].Some?
      {
        assert i in ps;
        var j :| 0 <= j < |ps| && ps[j] == i;
        assert r[j] == temps[i];
      }
    } else {
      var j :| 0 <= j < |r| && r[j].None?;
      assert ps[j] in ps;
    }
  }

  /** The 2 PM average computed after the weather response in `utils.fetch_weather`: KeyError
      for a missing key, IndexError for a 2 PM timestamp past the end of the temperatures,
      TypeError from `sum` for a missing 2 PM reading, otherwise the rounded mean of the
      2 PM readings, or None when no timestamp contains `"14:00"`. */
  function LegacyWeeklyTemperature(p: Payload): (r: Result<Option<real>, LegacyError>)
    ensures r == Failure(KeyError) <==> Columns(p, TemperatureField).Failure?
    ensures r == Failure(IndexError) <==>
      && Columns(p, TemperatureField).Success?
      && !PickedInRange(Times(p), Column(p, TemperatureField), HasTwoPmText)
    ensures r == Failure(TypeError) <==>
      && Columns(p, TemperatureField).Success?
      && PickedInRange(Times(p), Column(p, TemperatureField), HasTwoPmText)
      && exists i :: 0 <= i < |Times(p)| && HasTwoPmText(Times(p)[i])
           && i < |Column(p, TemperatureField)| && Column(p, TemperatureField)[i].None?
    ensures r == Success(None) <==>
      && Columns(p, TemperatureField).Success?
      && forall i :: 0 <= i < |Times(p)| ==> !HasTwoPmText(Times(p)[i])
    ensures r.Success? && r.value.Some? ==>
      var picked := PickWhere(Times(p), Column(p, TemperatureField), HasTwoPmText);
      && picked.Success? && picked.value != [] && AllPresent(picked.value)
      && -0.05 <= r.value.value - Mean(Present(picked.value)) <= 0.05
      && IsRound1(Mean(Present(picked.value)), r.value.value)
  {
    var cols := Columns(p, TemperatureField);
    if cols.Failure? then Failure(KeyError)
    else
      var (times, temps) := cols.value;
      assert times == Times(p) && temps == Column(p, TemperatureField);
      var picked := PickWhere(times, temps, HasTwoPmText);
      if picked.Failure? then Failure(IndexError)
      else if picked.value == [] then
        Success(None)
      else
        assert picked.value[0] in picked.value;
        PickedAllPresent(times, temps, HasTwoPmText);
        if !AllPresent(picked.value) then Failure(TypeError)
        else Success(Some(Round1(Mean(Present(picked.value)))))
  }

  /** The daily-then-weekly PM2.5 average computed after the response in `utils.fetch_air_quality`. */
  function LegacyWeeklyPm25(p: Payload): (r: Result<Option<real>, LegacyError>)
    ensures r.Failure? <==> Columns(p, Pm25Field).Failure?
  {
    var cols :- Columns(p, Pm25Field);
    var g := DailyGroups(Zip(cols.0, cols.1));
    DailyGroupsSpec(Zip(cols.0, cols.1));
    Success(Avg(DailyMeansAll(g)))
  }

  /** `[sum(values) / len(values) for date, values in daily_data.items()]`, without the emptiness check. */
  function DailyMeansAll(g: seq<DayGroup>): (r: seq<real>)
    requires forall k :: 0 <= k < |g| ==> g[k].values != []
    ensures |r| == |g| && forall k :: 0 <= k < |g| ==> r[k] == Mean(g[k].values)
  {
    if g == [] then [] else [Mean(g[0].values)] + DailyMeansAll(g[1..])
  }

  /** `YYYY-MM-DDTHH:MM`, the provider's hourly timestamp form. */
  predicate IsHourlyTimestamp(t: string) {
    && |t| == 16
    && t[4] == '-' && t[7] == '-' && t[10] == 'T' && t[13] == ':'
    && forall i :: 0 <= i < 16 && i != 4 && i != 7 && i != 10 && i != 13 ==> IsDigit(t[i])
  }

  /** On provider timestamps the substring test and the suffix test pick the same readings. */
  lemma SubstringMatchesSuffix(t: string)
    requires IsHourlyTimestamp(t)
    ensures Contains(t, TwoPmText) <==> EndsWith(t, HourSuffix(TwoPm))
  {
    ContainsIff(t, TwoPmText);
    TwoPmSuffix();
    if Contains(t, TwoPmText) {
      var i :| OccursAt(t, TwoPmText, i);
      OccursOnlyAtMinutes(t, i);
      SuffixFromOccurrence(t);
    }
    if EndsWith(t, "T14:00") {
      OccurrenceFromSuffix(t);
    }
  }

  /** The only `:` of a provider timestamp is at position 13, so `"14:00"` can only start at 11. */
  lemma OccursOnlyAtMinutes(t: string, i: int)
    requires IsHourlyTimestamp(t) && OccursAt(t, TwoPmText, i)
    ensures i == 11
  {
    assert t[i..i + 5][2] == TwoPmText[2] == ':';
    assert t[i + 2] == ':';
    assert !IsDigit(':');
  }

  lemma SuffixFromOccurrence(t: string)
    requires IsHourlyTimestamp(t) && OccursAt(t, TwoPmText, 11)
    ensures EndsWith(t, "T14:00")
  {
    assert t[11..16] == TwoPmText;
    assert t[|t| - 6..] == [t[10]] + t[11..16];
    assert "T14:00" == ['T'] + TwoPmText;
  }

  lemma OccurrenceFromSuffix(t: string)
    requires |t| == 16 && EndsWith(t, "T14:00")
    ensures OccursAt(t, TwoPmText, 11)
  {
    assert t[11..16] == t[10..16][1..];
  }

  /** The two copies of the 2 PM average agree on a payload with every key present, provider
      timestamps, and a present temperature at every 2 PM position. */
  lemma LegacyTemperatureMatchesService(p: Payload)
    requires Columns(p, TemperatureField).Success?
    requires forall i :: 0 <= i < |Times(p)| ==> IsHourlyTimestamp(Times(p)[i])
    requires forall i :: 0 <= i < |Times(p)| && HasTwoPmText(Times(p)[i]) ==>
                 i < |Column(p, TemperatureField)| && Column(p, TemperatureField)[i].Some?
    ensures LegacyWeeklyTemperature(p) == Success(WeeklyAvgTemperatureAt2pm(p))
  {
    var times, temps := Times(p), Column(p, TemperatureField);
    var suffix := HourSuffix(TwoPm);
    forall i | 0 <= i < |times|
      ensures HasTwoPmText(times[i]) <==> EndsWith(times[i], suffix)
    {
      SubstringMatchesSuffix(times[i]);
    }
    PickMatchesKeep(times, temps, HasTwoPmText, AtHour(TwoPm));
  }

  /** With the two selections agreeing on every timestamp and every picked position holding a
      reading, the comprehension and the service's filter give the same numbers. The `zip` of the
      service drops only the timestamps past the end of `temps`, and none of those is picked. */
  lemma {:induction false} PickMatchesKeep(times: seq<string>, temps: seq<Option<real>>,
                                           picked: string -> bool, sel: string -> bool)
    requires forall i :: 0 <= i < |times| ==> (picked(times[i]) <==> sel(times[i]))
    requires forall i :: 0 <= i < |times| && picked(times[i]) ==> i < |temps| && temps[i].Some?
    ensures PickWhere(times, temps, picked).Success?
    ensures AllPresent(PickWhere(times, temps, picked).value)
    ensures Present(PickWhere(times, temps, picked).value) == Keep(Zip(times, temps), sel)
  {
    if times != [] {
      var n := |times| - 1;
      var prefix := times[..n];
      assert forall i :: 0 <= i < n ==> prefix[i] == times[i];
      PickMatchesKeep(prefix, temps, picked, sel);
      PickWhereStep(times, temps, picked);
      if n < |temps| {
        ZipSnoc(times, temps);
        KeepStep(Zip(times, temps), sel);
        if picked(times[n]) {
          PresentAppend(PickWhere(prefix, temps, picked).value, temps[n]);
        }
      } else {
        ZipPastEnd(times, temps);
      }
    }
  }

  /** A timestamp with a reading adds one pair to the end of the `zip`. */
  lemma ZipSnoc(times: seq<string>, temps: seq<Option<real>>)
    requires times != [] && |times| - 1 < |temps|
    ensures var n, z := |times| - 1, Zip(times, temps);
      && |z| == n + 1 && z[..n] == Zip(times[..n], temps) && z[n] == Reading(times[n], temps[n])
  {
    var n := |times| - 1;
    var z, z' := Zip(times, temps), Zip(times[..n], temps);
    forall i | 0 <= i < n
      ensures z[..n][i] == z'[i]
    {
      assert times[..n][i] == times[i];
    }
  }

  /** A timestamp past the end of the readings adds nothing to the `zip`. */
  lemma ZipPastEnd(times: seq<string>, temps: seq<Option<real>>)
    requires times != [] && |times| - 1 >= |temps|
    ensures Zip(times, temps) == Zip(times[..|times| - 1], temps)
  {
    var n := |times| - 1;
    var z, z' := Zip(times, temps), Zip(times[..n], temps);
    assert |z| == |z'|;
    forall i | 0 <= i < |z|
      ensures z[i] == z'[i]
    {
      assert times[..n][i] == times[i];
    }
  }

  /** One step of the comprehension: the last timestamp adds its reading, is skipped, or raises. */
  lemma PickWhereStep(times: seq<string>, temps: seq<Option<real>>, picked: string -> bool)
    requires times != []
    ensures var n := |times| - 1;
      var front := PickWhere(times[..n], temps, picked);
      PickWhere(times, temps, picked) ==
        if front.Failure? || !picked(times[n]) then front
        else if n < |temps| then Success(front.value + [temps[n]])
        else Failure(IndexError)
  {
  }

  lemma PresentAppend(xs: seq<Option<real>>, x: Option<real>)
    requires AllPresent(xs) && x.Some?
    ensures AllPresent(xs + [x]) && Present(xs + [x]) == Present(xs) + [x.value]
  {
    var ys := xs + [x];
    assert AllPresent(ys);
    var a, b := Present(ys), Present(xs) + [x.value];
    assert |a| == |b|;
    forall i | 0 <= i < |a|
      ensures a[i] == b[i]
    {
      assert ys[i] == Some(a[i]);
      if i < |xs| {
        assert xs[i] == Some(b[i]);
      }
    }
  }

  /** The two copies of the PM2.5 average agree whenever the payload has every key. */
  lemma LegacyPm25MatchesService(p: Payload)
    requires Columns(p, Pm25Field).Success?
    ensures LegacyWeeklyPm25(p) == Success(WeeklyAvgPm25(p))
  {
    var g := DailyGroups(HourlySeries(p, Pm25Field));
    DailyGroupsSpec(HourlySeries(p, Pm25Field));
    MeansAgree(g);
  }

  lemma {:induction false} MeansAgree(g: seq<DayGroup>)
    requires forall k :: 0 <= k < |g| ==> g[k].values != []
    ensures DailyMeans(g) == DailyMeansAll(g)
  {
    if g != [] {
      MeansAgree(g[1..]);
    }
  }

  /** Where the copies part (1): a payload without `hourly` raises KeyError in the legacy copy
      and means "no data" in the service copy. */
  lemma LegacyRaisesOnMissingHourly()
    ensures LegacyWeeklyTemperature(Payload(None)) == Failure(KeyError)
    ensures WeeklyAvgTemperatureAt2pm(Payload(None)) == None
  {
    assert HourlySeries(Payload(None), TemperatureField) == [];
  }

  /** Where the copies part (2): for any timestamp containing `"14:00"`, a `null` reading there
      raises TypeError in the legacy copy and is skipped by the service copy. */
  lemma LegacyRaisesOnMissingReading(t: string)
    requires HasTwoPmText(t)
    ensures var p := Payload(Some(Hourly(Some([t]), map[TemperatureField := [None]])));
      LegacyWeeklyTemperature(p) == Failure(TypeError) && WeeklyAvgTemperatureAt2pm(p) == None
  {
    var none: seq<Option<real>> := [None];
    var p := Payload(Some(Hourly(Some([t]), map[TemperatureField := none])));
    assert Columns(p, TemperatureField) == Success(([t], none));
    assert PickWhere([t], none, HasTwoPmText) == Success(none) by {
      assert [t][..0] == [];
      assert [] + none == none;
    }
    assert !AllPresent(none);
    assert HourlySeries(p, TemperatureField) == [Reading(t, None)];
  }

  /** Where the copies part (3): for any timestamp containing `"14:00"`, a temperature list shorter
      than the time list raises IndexError in the legacy copy and is cut off by the service copy. */
  lemma LegacyRaisesOnShortColumn(t: string)
    requires HasTwoPmText(t)
    ensures var p := Payload(Some(Hourly(Some([t]), map[TemperatureField := []])));
      LegacyWeeklyTemperature(p) == Failure(IndexError) && WeeklyAvgTemperatureAt2pm(p) == None
  {
    var p := Payload(Some(Hourly(Some([t]), map[TemperatureField := []])));
    assert Columns(p, TemperatureField) == Success(([t], []));
    assert PickWhere([t], [], HasTwoPmText).Failure?;
    assert HourlySeries(p, TemperatureField) == [];
  }

  /** Attempt `o` returns a value: its request succeeded and `compute` did not raise on the payload. */
  predicate Accepted(o: ForecastCache.HttpOutcome, compute: Payload -> Result<Option<real>, LegacyError>) {
    o.Response? && compute(o.payload).Success?
  }

  /** A decorated job fetch under `@retry`: each attempt issues the request and runs `compute`
      on the payload; an exception from either is retried. */
  function LegacyFetch(network: seq<ForecastCache.HttpOutcome>, compute: Payload -> Result<Option<real>, LegacyError>)
    : (r: Result<Option<real>, ForecastCache.FetchError>)
    requires |network| == MaxAttempts
    ensures r.Success? <==> exists i :: 0 <= i < MaxAttempts && Accepted(network[i], compute)
    ensures r.Success? ==>
              exists i :: 0 <= i < MaxAttempts && Accepted(network[i], compute)
                && (forall j :: 0 <= j < i ==> !Accepted(network[j], compute))
                && compute(network[i].payload) == Success(r.value)
  {
    var runs := seq(MaxAttempts, i requires 0 <= i < MaxAttempts =>
      if Accepted(network[i], compute) then Returned(compute(network[i].payload).value) else Raised);
    assert forall i :: 0 <= i < MaxAttempts ==> (runs[i].Raised? <==> !Accepted(network[i], compute));
    var outcome := RetryCall(runs);
    if outcome.result.Some? then
      var i := outcome.made - 1;
      assert Accepted(network[i], compute) && forall j :: 0 <= j < i ==> !Accepted(network[j], compute);
      Success(outcome.result.value)
    else
      assert forall i :: 0 <= i < MaxAttempts ==> runs[i].Raised?;
      Failure(ForecastCache.RetryError)
  }

  /** `fetch_weather` of the periodic job: the value of the first attempt whose request succeeds
      and whose 2 PM average does not raise, or a retry error after three attempts without one. */
  function LegacyFetchWeather(network: seq<ForecastCache.HttpOutcome>): (r: Result<Option<real>, ForecastCache.FetchError>)
    requires |network| == MaxAttempts
    ensures r.Success? <==> exists i :: 0 <= i < MaxAttempts && Accepted(network[i], LegacyWeeklyTemperature)
    ensures r.Success? ==>
              exists i :: 0 <= i < MaxAttempts && Accepted(network[i], LegacyWeeklyTemperature)
                && (forall j :: 0 <= j < i ==> !Accepted(network[j], LegacyWeeklyTemperature))
                && LegacyWeeklyTemperature(network[i].payload) == Success(r.value)
  {
    LegacyFetch(network, LegacyWeeklyTemperature)
  }

  /** `fetch_air_quality` of the periodic job: the same with the PM2.5 average. */
  function LegacyFetchAirQuality(network: seq<ForecastCache.HttpOutcome>): (r: Result<Option<real>, ForecastCache.FetchError>)
    requires |network| == MaxAttempts
    ensures r.Success? <==> exists i :: 0 <= i < MaxAttempts && Accepted(network[i], LegacyWeeklyPm25)
    ensures r.Success? ==>
              exists i :: 0 <= i < MaxAttempts && Accepted(network[i], LegacyWeeklyPm25)
                && (forall j :: 0 <= j < i ==> !Accepted(network[j], LegacyWeeklyPm25))
                && LegacyWeeklyPm25(network[i].payload) == Success(r.value)
  {
    LegacyFetch(network, LegacyWeeklyPm25)
  }
}
