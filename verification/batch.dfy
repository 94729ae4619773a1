/** The periodic refresh job (`update_district_weather_and_air_quality` in
    `recommendations/tasks.py`): for each district, the two legacy fetches; a
    district whose fetch raises is skipped, a district with both averages gets
    them written together with a fresh `updated_at`, and the job counts the
    districts it updated. */
module Batch {

  import opened Wrappers
  import opened Districts
  import opened Retry
  import opened ForecastCache
  import opened Legacy

  /** How the two fetches of one district ended. */
  datatype DistrictFetch = FetchRaised | Fetched(temp: Option<real>, pm25: Option<real>)

  /** `temp = fetch_weather(...)` then `pm25 = fetch_air_quality(...)` inside the `try`. */
  function FetchDistrict(weatherNetwork: seq<HttpOutcome>, airNetwork: seq<HttpOutcome>): (r: DistrictFetch)
    requires |weatherNetwork| == MaxAttempts && |airNetwork| == MaxAttempts
    ensures r.Fetched? <==>
              && (exists i :: 0 <= i < MaxAttempts && Accepted(weatherNetwork[i], LegacyWeeklyTemperature))
              && (exists i :: 0 <= i < MaxAttempts && Accepted(airNetwork[i], LegacyWeeklyPm25))
    ensures r.Fetched? ==>
              && Success(r.temp) == LegacyFetchWeather(weatherNetwork)
              && Success(r.pm25) == LegacyFetchAirQuality(airNetwork)
  {
    var temp := LegacyFetchWeather(weatherNetwork);
    if temp.Failure? then FetchRaised
    else
      var pm25 := LegacyFetchAirQuality(airNetwork);
      if pm25.Failure? then FetchRaised
      else Fetched(temp.value, pm25.value)
  }

  /** `if temp is not None and pm25 is not None` */
  predicate Updates(f: DistrictFetch) {
    f.Fetched? && f.temp.Some? && f.pm25.Some?
  }

  /** The districts the job updates. */
  function UpdatedIndices(fetches: seq<DistrictFetch>, n: nat): (s: set<nat>)
    requires n <= |fetches|
    ensures forall i: nat :: i in s <==> i < n && Updates(fetches[i])
  {
    set i: nat | i < n && Updates(fetches[i])
  }

  /** `updated_count += 1` runs for a district exactly when it is updated. */
  lemma UpdatedIndicesStep(fetches: seq<DistrictFetch>, n: nat)
    requires n < |fetches|
    ensures |UpdatedIndices(fetches, n + 1)| == |UpdatedIndices(fetches, n)| + if Updates(fetches[n]) then 1 else 0
  {
    var before, after := UpdatedIndices(fetches, n), UpdatedIndices(fetches, n + 1);
    var added: set<nat> := if Updates(fetches[n]) then {n} else {};
    assert n !in before;
    forall i: nat
      ensures i in after <==> i in before + added
    {
    }
    assert after == before + added;
  }

  /** One iteration of the loop body on a district. */
  function Refresh(d: District, f: DistrictFetch, now: int): (r: District)
    ensures !Updates(f) ==> r == d
    ensures Updates(f) ==>
              && r.avgTemp2pm == f.temp && r.avgPm25 == f.pm25 && r.updatedAt == now
              && r.(avgTemp2pm := d.avgTemp2pm, avgPm25 := d.avgPm25, updatedAt := d.updatedAt) == d
  {
    if Updates(f) then d.(avgTemp2pm := f.temp, avgPm25 := f.pm25, updatedAt := now) else d
  }

  /** Running the job twice on the same fetch results changes nothing the second time, except the clock. */
  lemma RefreshIdempotent(d: District, f: DistrictFetch, now: int, later: int)
    ensures Refresh(Refresh(d, f, now), f, later) == Refresh(d, f, later)
  {
  }

  /** The loop of the job: `fetches[i]` is how district `i`'s fetches ended and `clock[i]` the
      time its `save()` stamps into `updated_at`. */
  method UpdateDistricts(ds: seq<District>, fetches: seq<DistrictFetch>, clock: seq<int>)
    returns (ds': seq<District>, updatedCount: nat)
    requires |fetches| == |ds| && |clock| == |ds|
    ensures |ds'| == |ds|
    ensures forall i :: 0 <= i < |ds| && !Updates(fetches[i]) ==> ds'[i] == ds[i]
    ensures forall i :: 0 <= i < |ds| && Updates(fetches[i]) ==>
              && ds'[i].avgTemp2pm == fetches[i].temp && ds'[i].avgPm25 == fetches[i].pm25
              && ds'[i].updatedAt == clock[i]
              && ds'[i].(avgTemp2pm := ds[i].avgTemp2pm, avgPm25 := ds[i].avgPm25, updatedAt := ds[i].updatedAt) == ds[i]
    ensures updatedCount == |UpdatedIndices(fetches, |fetches|)|
    ensures updatedCount <= |ds|
  {
    ds' := [];
    updatedCount := 0;
    var k := 0;
    while k < |ds|
      invariant 0 <= k <= |ds|
      invariant |ds'| == k
      invariant forall i :: 0 <= i < k ==> ds'[i] == Refresh(ds[i], fetches[i], clock[i])
      invariant updatedCount == |UpdatedIndices(fetches, k)|
      invariant updatedCount <= k
    {
      UpdatedIndicesStep(fetches, k);
      var f := fetches[k];
      if f.Fetched? && f.temp.Some? && f.pm25.Some? {
        ds' := ds' + [ds[k].(avgTemp2pm := f.temp, avgPm25 := f.pm25, updatedAt := clock[k])];
        updatedCount := updatedCount + 1;
      } else {
        ds' := ds' + [ds[k]];
      }
      k := k + 1;
    }
  }
}
