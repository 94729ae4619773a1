/** `TravelRecommendationView.get` after query validation: four lookups at 2 PM on
    the travel date, the decision, and the response. An exception from any lookup
    becomes a validation error instead of a verdict. */
module RecommendView {

  import opened Wrappers
  import opened Text
  import opened Dates
  import opened Series
  import opened Aggregates
  import opened Retry
  import opened ForecastCache
  import opened Service
  import opened Districts
  import opened Recommendation
  import CacheKeys

  /** The validated query: current coordinates, destination district and travel date. */
  datatype Query = Query(currentLat: real, currentLon: real, destination: District, travelDate: Date)

  datatype LocationMetrics = LocationMetrics(
    district: string,
    lat: real,
    lon: real,
    temperatureC: Option<real>,
    pm25: Option<real>,
    measuredAt: string)

  datatype RecommendationResponse = RecommendationResponse(
    decision: Decision,
    current: LocationMetrics,
    destination: LocationMetrics)

  /** `ValidationError({"detail": str(e)})` */
  datatype ViewError = ValidationError

  /** `f"{travel_date.isoformat()}T14:00"` */
  function MeasuredAt(d: Date): (s: string)
    requires ValidDate(d)
    ensures s == HourStamp(d, TwoPm)
  {
    TwoPmStamp(d);
    IsoFormat(d) + "T14:00"
  }

  lemma TwoPmStamp(d: Date)
    requires ValidDate(d)
    ensures HourStamp(d, TwoPm) == IsoFormat(d) + "T14:00"
  {
    HourStampText(d, TwoPm, ZeroPadded(TwoPm, 2));
    TwoPmSuffix();
  }

  /** The response built from the four payloads: every value is the reading at 2 PM on the
      travel date, and the verdict is decided on exactly the values the response reports. */
  function Respond(q: Query, curWeather: Payload, destWeather: Payload, curAir: Payload, destAir: Payload): (r: RecommendationResponse)
    requires ValidDate(q.travelDate)
    ensures r.current.measuredAt == r.destination.measuredAt == HourStamp(q.travelDate, TwoPm)
    ensures r.current == LocationMetrics("", q.currentLat, q.currentLon,
              ValueOnDateAtHour(curWeather, TemperatureField, q.travelDate, TwoPm),
              ValueOnDateAtHour(curAir, Pm25Field, q.travelDate, TwoPm), r.current.measuredAt)
    ensures r.destination == LocationMetrics(q.destination.name, q.destination.latitude, q.destination.longitude,
              ValueOnDateAtHour(destWeather, TemperatureField, q.travelDate, TwoPm),
              ValueOnDateAtHour(destAir, Pm25Field, q.travelDate, TwoPm), r.destination.measuredAt)
    ensures r.decision == Decide(r.current.temperatureC, r.destination.temperatureC, r.current.pm25, r.destination.pm25)
  {
    var d := q.travelDate;
    var curTemp := ValueOnDateAtHour(curWeather, TemperatureField, d, TwoPm);
    var destTemp := ValueOnDateAtHour(destWeather, TemperatureField, d, TwoPm);
    var curPm := ValueOnDateAtHour(curAir, Pm25Field, d, TwoPm);
    var destPm := ValueOnDateAtHour(destAir, Pm25Field, d, TwoPm);
    var measuredAt := MeasuredAt(d);
    RecommendationResponse(
      Decide(curTemp, destTemp, curPm, destPm),
      LocationMetrics("", q.currentLat, q.currentLon, curTemp, curPm, measuredAt),
      LocationMetrics(q.destination.name, q.destination.latitude, q.destination.longitude, destTemp, destPm, measuredAt))
  }

  /** Every attempt of a fetch failed. */
  predicate AllFailed(network: seq<HttpOutcome>) {
    forall j :: 0 <= j < |network| ==> network[j].HttpError?
  }

  /** Which payload: the weather one behind `temperature_on` or the air-quality one behind `pm25_on`. */
  datatype Kind = Weather | AirQuality

  function KeyOf(kind: Kind, svc: OpenMeteoService): string {
    match kind
    case Weather => WeatherKeyOf(svc)
    case AirQuality => AirQualityKeyOf(svc)
  }

  /** `service.fetch_weather()` or `service.fetch_air_quality()`. */
  method FetchOne(kind: Kind, svc: OpenMeteoService, cache: Cache, network: seq<HttpOutcome>)
    returns (r: Result<Payload, FetchError>, cache': Cache)
    requires |network| == MaxAttempts
    ensures r.Failure? <==> LookupFails(cache, KeyOf(kind, svc), network)
    ensures r.Failure? ==> cache' == cache
    ensures r.Success? ==> StoredOrFirst(cache, KeyOf(kind, svc), network, r.value)
    ensures r.Success? ==> cache' == cache[KeyOf(kind, svc) := r.value]
    ensures Grows(cache, cache')
    ensures forall k :: k in cache' && k !in cache ==> k == KeyOf(kind, svc)
  {
    match kind
    case Weather =>
      var requests;
      r, cache', requests := FetchWeather(cache, svc.lat, svc.lon, network);
    case AirQuality =>
      var requests;
      r, cache', requests := FetchAirQuality(cache, svc.lat, svc.lon, network);
  }

  /** The lookup of `key` raises: nothing is stored under it and every attempt fails. */
  predicate LookupFails(cache: Cache, key: string, network: seq<HttpOutcome>) {
    key !in cache && AllFailed(network)
  }

  /** One kind of lookup for `here` then for `there` raises. The second lookup also sees the
      entry the first one stored, so it cannot fail when both places share a key. */
  predicate PairFails(kind: Kind, here: OpenMeteoService, there: OpenMeteoService, cache: Cache,
                      hereNetwork: seq<HttpOutcome>, thereNetwork: seq<HttpOutcome>) {
    || LookupFails(cache, KeyOf(kind, here), hereNetwork)
    || (KeyOf(kind, there) != KeyOf(kind, here) && LookupFails(cache, KeyOf(kind, there), thereNetwork))
  }

  /** `p` and `p'` are what the two lookups return: each the stored payload or its first response,
      and the same payload twice when both places share a key. */
  predicate PairServed(kind: Kind, here: OpenMeteoService, there: OpenMeteoService, cache: Cache,
                       hereNetwork: seq<HttpOutcome>, thereNetwork: seq<HttpOutcome>, p: Payload, p': Payload) {
    && StoredOrFirst(cache, KeyOf(kind, here), hereNetwork, p)
    && (KeyOf(kind, there) == KeyOf(kind, here) ==> p' == p)
    && (KeyOf(kind, there) != KeyOf(kind, here) ==> StoredOrFirst(cache, KeyOf(kind, there), thereNetwork, p'))
  }

  /** After the first lookup stored `p`, the second lookup fails exactly when it needs the network,
      is not served by that entry, and every attempt fails. */
  lemma SecondLookupFails(kind: Kind, here: OpenMeteoService, there: OpenMeteoService, cache: Cache,
                          thereNetwork: seq<HttpOutcome>, p: Payload)
    ensures LookupFails(cache[KeyOf(kind, here) := p], KeyOf(kind, there), thereNetwork)
        <==> KeyOf(kind, there) != KeyOf(kind, here) && LookupFails(cache, KeyOf(kind, there), thereNetwork)
  {
  }

  /** After the first lookup stored `p`, what the second lookup returns is what `PairServed` describes. */
  lemma SecondLookupServed(kind: Kind, here: OpenMeteoService, there: OpenMeteoService, cache: Cache,
                           hereNetwork: seq<HttpOutcome>, thereNetwork: seq<HttpOutcome>, p: Payload, p': Payload)
    requires StoredOrFirst(cache, KeyOf(kind, here), hereNetwork, p)
    requires StoredOrFirst(cache[KeyOf(kind, here) := p], KeyOf(kind, there), thereNetwork, p')
    ensures PairServed(kind, here, there, cache, hereNetwork, thereNetwork, p, p')
  {
  }

  /** One kind of fetch for the current location and then for the destination. */
  method FetchBoth(kind: Kind, here: OpenMeteoService, there: OpenMeteoService, cache: Cache,
                   hereNetwork: seq<HttpOutcome>, thereNetwork: seq<HttpOutcome>)
    returns (r: Result<(Payload, Payload), FetchError>, cache': Cache)
    requires |hereNetwork| == MaxAttempts && |thereNetwork| == MaxAttempts
    ensures r.Failure? <==> PairFails(kind, here, there, cache, hereNetwork, thereNetwork)
    ensures r.Success? ==> PairServed(kind, here, there, cache, hereNetwork, thereNetwork, r.value.0, r.value.1)
    ensures r.Success? ==>
              && KeyOf(kind, here) in cache' && KeyOf(kind, there) in cache'
              && r.value == (cache'[KeyOf(kind, here)], cache'[KeyOf(kind, there)])
    ensures Grows(cache, cache')
    ensures forall k :: k in cache' && k !in cache ==> k == KeyOf(kind, here) || k == KeyOf(kind, there)
  {
    var a, c1 := FetchOne(kind, here, cache, hereNetwork);
    if a.Failure? {
      return Failure(a.error), c1;
    }
    SecondLookupFails(kind, here, there, cache, thereNetwork, a.value);
    var b, c2 := FetchOne(kind, there, c1, thereNetwork);
    if b.Failure? {
      return Failure(b.error), c2;
    }
    SecondLookupServed(kind, here, there, cache, hereNetwork, thereNetwork, a.value, b.value);
    r, cache' := Success((a.value, b.value)), c2;
  }

  /** The weather and the air-quality keys of the two places differ. */
  lemma KindsNeverShareKeys(here: OpenMeteoService, there: OpenMeteoService)
    ensures KeyOf(Weather, here) != KeyOf(AirQuality, here) && KeyOf(Weather, here) != KeyOf(AirQuality, there)
    ensures KeyOf(Weather, there) != KeyOf(AirQuality, here) && KeyOf(Weather, there) != KeyOf(AirQuality, there)
  {
    CacheKeys.WeatherAndAirQualityKeysDiffer(here.lat, here.lon, here.lat, here.lon);
    CacheKeys.WeatherAndAirQualityKeysDiffer(here.lat, here.lon, there.lat, there.lon);
    CacheKeys.WeatherAndAirQualityKeysDiffer(there.lat, there.lon, here.lat, here.lon);
    CacheKeys.WeatherAndAirQualityKeysDiffer(there.lat, there.lon, there.lat, there.lon);
  }

  /** After the weather lookups, the air-quality keys are stored exactly as before, because
      the weather lookups only add weather keys. */
  lemma AirKeysUntouched(here: OpenMeteoService, there: OpenMeteoService, cache: Cache, cache': Cache)
    requires Grows(cache, cache')
    requires forall k :: k in cache' && k !in cache ==> k == KeyOf(Weather, here) || k == KeyOf(Weather, there)
    ensures KeyOf(AirQuality, here) in cache' <==> KeyOf(AirQuality, here) in cache
    ensures KeyOf(AirQuality, there) in cache' <==> KeyOf(AirQuality, there) in cache
    ensures KeyOf(AirQuality, here) in cache ==> cache'[KeyOf(AirQuality, here)] == cache[KeyOf(AirQuality, here)]
    ensures KeyOf(AirQuality, there) in cache ==> cache'[KeyOf(AirQuality, there)] == cache[KeyOf(AirQuality, there)]
  {
    KindsNeverShareKeys(here, there);
  }

  /** The air-quality lookups fail against the cache the weather lookups left exactly when
      they fail against the cache the view started with. */
  lemma AirFailsAlike(here: OpenMeteoService, there: OpenMeteoService, cache: Cache, cache': Cache,
                      network2: seq<HttpOutcome>, network3: seq<HttpOutcome>)
    requires Grows(cache, cache')
    requires forall k :: k in cache' && k !in cache ==> k == KeyOf(Weather, here) || k == KeyOf(Weather, there)
    ensures PairFails(AirQuality, here, there, cache', network2, network3)
        <==> PairFails(AirQuality, here, there, cache, network2, network3)
  {
    AirKeysUntouched(here, there, cache, cache');
  }

  /** The air-quality lookups return the same payloads against either cache. */
  lemma AirServedAlike(here: OpenMeteoService, there: OpenMeteoService, cache: Cache, cache': Cache,
                       network2: seq<HttpOutcome>, network3: seq<HttpOutcome>, p: Payload, p': Payload)
    requires Grows(cache, cache')
    requires forall k :: k in cache' && k !in cache ==> k == KeyOf(Weather, here) || k == KeyOf(Weather, there)
    requires PairServed(AirQuality, here, there, cache', network2, network3, p, p')
    ensures PairServed(AirQuality, here, there, cache, network2, network3, p, p')
  {
    AirKeysUntouched(here, there, cache, cache');
  }

  /** The lookups in source order: current and destination temperature, then current and
      destination PM2.5, each with its own network outcomes `network[0..3]`. Any lookup that
      raises makes the view raise a validation error, and otherwise the response is built
      from the four payloads the lookups return. */
  method Recommend(cache: Cache, q: Query, network: seq<seq<HttpOutcome>>)
    returns (r: Result<RecommendationResponse, ViewError>, cache': Cache)
    requires ValidDate(q.travelDate)
    requires |network| == 4 && forall i :: 0 <= i < 4 ==> |network[i]| == MaxAttempts
    ensures var here, there := OpenMeteoService(q.currentLat, q.currentLon), OpenMeteoService(q.destination.latitude, q.destination.longitude);
      r.Failure? <==>
        PairFails(Weather, here, there, cache, network[0], network[1])
        || PairFails(AirQuality, here, there, cache, network[2], network[3])
    ensures r.Success? ==>
              var here, there := OpenMeteoService(q.currentLat, q.currentLon), OpenMeteoService(q.destination.latitude, q.destination.longitude);
              && WeatherKeyOf(here) in cache' && WeatherKeyOf(there) in cache'
              && AirQualityKeyOf(here) in cache' && AirQualityKeyOf(there) in cache'
              && PairServed(Weather, here, there, cache, network[0], network[1],
                            cache'[WeatherKeyOf(here)], cache'[WeatherKeyOf(there)])
              && PairServed(AirQuality, here, there, cache, network[2], network[3],
                            cache'[AirQualityKeyOf(here)], cache'[AirQualityKeyOf(there)])
              && r.value == Respond(q, cache'[WeatherKeyOf(here)], cache'[WeatherKeyOf(there)],
                                       cache'[AirQualityKeyOf(here)], cache'[AirQualityKeyOf(there)])
    ensures Grows(cache, cache')
  {
    var here := OpenMeteoService(q.currentLat, q.currentLon);
    var there := OpenMeteoService(q.destination.latitude, q.destination.longitude);
    var weather, c1 := FetchBoth(Weather, here, there, cache, network[0], network[1]);
    if weather.Failure? {
      return Failure(ValidationError), c1;
    }
    var air, c2 := FetchBoth(AirQuality, here, there, c1, network[2], network[3]);
    if air.Failure? {
      AirFailsAlike(here, there, cache, c1, network[2], network[3]);
      return Failure(ValidationError), c2;
    }
    AirFailsAlike(here, there, cache, c1, network[2], network[3]);
    AirServedAlike(here, there, cache, c1, network[2], network[3], air.value.0, air.value.1);
    assert KeyOf(Weather, here) == WeatherKeyOf(here) && KeyOf(Weather, there) == WeatherKeyOf(there);
    assert KeyOf(AirQuality, here) == AirQualityKeyOf(here) && KeyOf(AirQuality, there) == AirQualityKeyOf(there);
    assert weather.value == (c2[WeatherKeyOf(here)], c2[WeatherKeyOf(there)]);
    cache' := c2;
    r := Success(Respond(q, weather.value.0, weather.value.1, air.value.0, air.value.1));
  }
}
