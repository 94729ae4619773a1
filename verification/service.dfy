/** `OpenMeteoService`: a location whose lookups go through the cached, retried
    fetches and then through the payload functions. Every method threads the
    cache and takes the fetch's network outcomes as a parameter. */
module Service {

  import opened Wrappers
  import opened Dates
  import opened Series
  import Aggregates
  import opened Retry
  import opened ForecastCache
  import CacheKeys

  datatype OpenMeteoService = OpenMeteoService(lat: real, lon: real)

  function WeatherKeyOf(svc: OpenMeteoService): string {
    CacheKeys.WeatherKey(svc.lat, svc.lon)
  }

  function AirQualityKeyOf(svc: OpenMeteoService): string {
    CacheKeys.AirQualityKey(svc.lat, svc.lon)
  }

  /** `temperature_on(d, hour)`: the hourly temperature at `<d>T<hh>:00` of the weather payload. */
  method TemperatureOn(svc: OpenMeteoService, cache: Cache, d: Date, hour: nat, network: seq<HttpOutcome>)
    returns (r: Result<Option<real>, FetchError>, cache': Cache)
    requires ValidDate(d) && |network| == MaxAttempts
    ensures r.Success? <==> CanServe(cache, WeatherKeyOf(svc), network)
    ensures r.Success? ==>
              && WeatherKeyOf(svc) in cache'
              && Served(cache, WeatherKeyOf(svc), network, cache', cache'[WeatherKeyOf(svc)])
              && r.value == ValueOnDateAtHour(cache'[WeatherKeyOf(svc)], TemperatureField, d, hour)
    ensures r.Failure? ==> cache' == cache
    ensures Grows(cache, cache')
  {
    var p, c, _ := FetchWeather(cache, svc.lat, svc.lon, network);
    cache' := c;
    if p.Failure? {
      return Failure(p.error), cache';
    }
    r := Success(ValueOnDateAtHour(p.value, TemperatureField, d, hour));
  }

  /** `pm25_on(d, hour)`: the hourly PM2.5 at `<d>T<hh>:00` of the air-quality payload. */
  method Pm25On(svc: OpenMeteoService, cache: Cache, d: Date, hour: nat, network: seq<HttpOutcome>)
    returns (r: Result<Option<real>, FetchError>, cache': Cache)
    requires ValidDate(d) && |network| == MaxAttempts
    ensures r.Success? <==> CanServe(cache, AirQualityKeyOf(svc), network)
    ensures r.Success? ==>
              && AirQualityKeyOf(svc) in cache'
              && Served(cache, AirQualityKeyOf(svc), network, cache', cache'[AirQualityKeyOf(svc)])
              && r.value == ValueOnDateAtHour(cache'[AirQualityKeyOf(svc)], Pm25Field, d, hour)
    ensures r.Failure? ==> cache' == cache
    ensures Grows(cache, cache')
  {
    var p, c, _ := FetchAirQuality(cache, svc.lat, svc.lon, network);
    cache' := c;
    if p.Failure? {
      return Failure(p.error), cache';
    }
    r := Success(ValueOnDateAtHour(p.value, Pm25Field, d, hour));
  }

  /** `weather_timeseries()`: the timestamp-to-temperature map of the weather payload. */
  method WeatherTimeseries(svc: OpenMeteoService, cache: Cache, network: seq<HttpOutcome>)
    returns (r: Result<map<string, Option<real>>, FetchError>, cache': Cache)
    requires |network| == MaxAttempts
    ensures r.Success? <==> CanServe(cache, WeatherKeyOf(svc), network)
    ensures r.Success? ==>
              && WeatherKeyOf(svc) in cache'
              && Served(cache, WeatherKeyOf(svc), network, cache', cache'[WeatherKeyOf(svc)])
              && r.value == HourlyMap(HourlySeries(cache'[WeatherKeyOf(svc)], TemperatureField))
    ensures r.Failure? ==> cache' == cache
    ensures Grows(cache, cache')
  {
    var p, c, _ := FetchWeather(cache, svc.lat, svc.lon, network);
    cache' := c;
    if p.Failure? {
      return Failure(p.error), cache';
    }
    r := Success(HourlyMap(HourlySeries(p.value, TemperatureField)));
  }

  /** `air_quality_timeseries()`: the timestamp-to-PM2.5 map of the air-quality payload. */
  method AirQualityTimeseries(svc: OpenMeteoService, cache: Cache, network: seq<HttpOutcome>)
    returns (r: Result<map<string, Option<real>>, FetchError>, cache': Cache)
    requires |network| == MaxAttempts
    ensures r.Success? <==> CanServe(cache, AirQualityKeyOf(svc), network)
    ensures r.Success? ==>
              && AirQualityKeyOf(svc) in cache'
              && Served(cache, AirQualityKeyOf(svc), network, cache', cache'[AirQualityKeyOf(svc)])
              && r.value == HourlyMap(HourlySeries(cache'[AirQualityKeyOf(svc)], Pm25Field))
    ensures r.Failure? ==> cache' == cache
    ensures Grows(cache, cache')
  {
    var p, c, _ := FetchAirQuality(cache, svc.lat, svc.lon, network);
    cache' := c;
    if p.Failure? {
      return Failure(p.error), cache';
    }
    r := Success(HourlyMap(HourlySeries(p.value, Pm25Field)));
  }

  /** `weekly_avg_temp_2pm()`: the 2 PM average of the weather payload. */
  method WeeklyAvgTemp2pm(svc: OpenMeteoService, cache: Cache, network: seq<HttpOutcome>)
    returns (r: Result<Option<real>, FetchError>, cache': Cache)
    requires |network| == MaxAttempts
    ensures r.Success? <==> CanServe(cache, WeatherKeyOf(svc), network)
    ensures r.Success? ==>
              && WeatherKeyOf(svc) in cache'
              && Served(cache, WeatherKeyOf(svc), network, cache', cache'[WeatherKeyOf(svc)])
              && r.value == Aggregates.WeeklyAvgTemperatureAt2pm(cache'[WeatherKeyOf(svc)])
    ensures r.Failure? ==> cache' == cache
    ensures Grows(cache, cache')
  {
    var p, c, _ := FetchWeather(cache, svc.lat, svc.lon, network);
    cache' := c;
    if p.Failure? {
      return Failure(p.error), cache';
    }
    r := Success(Aggregates.WeeklyAvgTemperatureAt2pm(p.value));
  }

  /** `weekly_avg_pm25()`: the daily-then-weekly PM2.5 average of the air-quality payload. */
  method WeeklyAvgPm25(svc: OpenMeteoService, cache: Cache, network: seq<HttpOutcome>)
    returns (r: Result<Option<real>, FetchError>, cache': Cache)
    requires |network| == MaxAttempts
    ensures r.Success? <==> CanServe(cache, AirQualityKeyOf(svc), network)
    ensures r.Success? ==>
              && AirQualityKeyOf(svc) in cache'
              && Served(cache, AirQualityKeyOf(svc), network, cache', cache'[AirQualityKeyOf(svc)])
              && r.value == Aggregates.WeeklyAvgPm25(cache'[AirQualityKeyOf(svc)])
    ensures r.Failure? ==> cache' == cache
    ensures Grows(cache, cache')
  {
    var p, c, _ := FetchAirQuality(cache, svc.lat, svc.lon, network);
    cache' := c;
    if p.Failure? {
      return Failure(p.error), cache';
    }
    r := Success(Aggregates.WeeklyAvgPm25(p.value));
  }
}
