/** The cached, retried fetch of `fetch_weather` and `fetch_air_quality`.

    The cache is a map from key to stored payload with no expiry (expiry is
    time-based and owned by the cache library). The network is a parameter:
    `network[i]` is how the request of run `i` of the retried body would end. */
module ForecastCache {

  import opened Wrappers
  import opened Series
  import opened Retry
  import CacheKeys

  type Cache = map<string, Payload>

  /** How `requests.get` + `raise_for_status()` + `resp.json()` ends: a payload, or any exception. */
  datatype HttpOutcome = Response(payload: Payload) | HttpError

  /** Raised by the retry decorator once every attempt has failed. */
  datatype FetchError = RetryError

  /** One run of the decorated body, as the retry decorator sees it. A stored value
      of any kind counts as a hit because the lookup is against a private sentinel. */
  function RunBody(cache: Cache, key: string, outcome: HttpOutcome): Attempt<Payload> {
    if key in cache then Returned(cache[key])
    else if outcome.Response? then Returned(outcome.payload)
    else Raised
  }

  /** `p` is what a cached fetch of `key` returned and `cache'` is the cache after it: the stored
      payload on a hit with the cache untouched, or on a miss the payload of the first successful
      request, now stored under `key`. */
  predicate Served(cache: Cache, key: string, network: seq<HttpOutcome>, cache': Cache, p: Payload) {
    if key in cache then p == cache[key] && cache' == cache
    else cache' == cache[key := p] && FirstResponse(network, p)
  }

  /** `p` is the payload of the first attempt whose request succeeded. */
  predicate FirstResponse(network: seq<HttpOutcome>, p: Payload) {
    exists i :: 0 <= i < |network| && network[i] == Response(p) && forall j :: 0 <= j < i ==> network[j].HttpError?
  }

  /** `p` is what a lookup of `key` returns: the stored payload, or else the first response. */
  predicate StoredOrFirst(cache: Cache, key: string, network: seq<HttpOutcome>, p: Payload) {
    if key in cache then p == cache[key] else FirstResponse(network, p)
  }

  /** A cached fetch of `key` can succeed: the key is stored, or some attempt's request succeeds. */
  predicate CanServe(cache: Cache, key: string, network: seq<HttpOutcome>) {
    key in cache || exists i :: 0 <= i < |network| && network[i].Response?
  }

  /** The cache only grows: a fetch never drops or replaces a stored entry. */
  predicate Grows(cache: Cache, cache': Cache) {
    forall k :: k in cache ==> k in cache' && cache'[k] == cache[k]
  }

  /** The body of `fetch_weather` / `fetch_air_quality` under `@retry`: look the key up,
      on a miss issue the request and store the payload only once it succeeded. */
  method Fetch(cache: Cache, key: string, network: seq<HttpOutcome>)
    returns (r: Result<Payload, FetchError>, cache': Cache, requests: nat)
    requires |network| == MaxAttempts
    ensures key in cache ==> r == Success(cache[key]) && cache' == cache && requests == 0
    ensures key !in cache && r.Success? ==>
      && 1 <= requests <= MaxAttempts
      && network[requests - 1] == Response(r.value)
      && (forall i :: 0 <= i < requests - 1 ==> network[i].HttpError?)
      && cache' == cache[key := r.value]
    ensures r.Failure? ==>
      && key !in cache
      && (forall i :: 0 <= i < MaxAttempts ==> network[i].HttpError?)
      && cache' == cache
      && requests == MaxAttempts
    ensures r.Success? ==> Served(cache, key, network, cache', r.value)
    ensures var spec := RetryCall(seq(MaxAttempts, i requires 0 <= i < MaxAttempts => RunBody(cache, key, network[i])));
      (r.Success? <==> spec.result.Some?) && (r.Success? ==> r.value == spec.result.value)
  {
    ghost var runs := seq(MaxAttempts, i requires 0 <= i < MaxAttempts => RunBody(cache, key, network[i]));
    var attempt := 0;
    requests := 0;
    cache' := cache;
    while attempt < MaxAttempts
      invariant 0 <= attempt <= MaxAttempts
      invariant cache' == cache
      invariant requests == attempt
      invariant attempt > 0 ==> key !in cache
      invariant forall i :: 0 <= i < attempt ==> network[i].HttpError?
    {
      if key in cache' {
        FirstReturnWins(runs, 0);
        r := Success(cache'[key]);
        return;
      }
      requests := requests + 1;
      match network[attempt] {
        case Response(p) =>
          FirstReturnWins(runs, attempt);
          cache' := cache'[key := p];
          r := Success(p);
          return;
        case HttpError =>
          attempt := attempt + 1;
      }
    }
    r := Failure(RetryError);
  }

  /** `fetch_weather(lat, lon)` with its default arguments. */
  method FetchWeather(cache: Cache, lat: real, lon: real, network: seq<HttpOutcome>)
    returns (r: Result<Payload, FetchError>, cache': Cache, requests: nat)
    requires |network| == MaxAttempts
    ensures CacheKeys.WeatherKey(lat, lon) in cache ==>
      r == Success(cache[CacheKeys.WeatherKey(lat, lon)]) && cache' == cache && requests == 0
    ensures r.Failure? ==>
      && CacheKeys.WeatherKey(lat, lon) !in cache
      && (forall i :: 0 <= i < MaxAttempts ==> network[i].HttpError?)
      && cache' == cache && requests == MaxAttempts
    ensures r.Success? <==> CanServe(cache, CacheKeys.WeatherKey(lat, lon), network)
    ensures r.Success? ==> Served(cache, CacheKeys.WeatherKey(lat, lon), network, cache', r.value)
    ensures Grows(cache, cache')
    ensures forall k :: k != CacheKeys.WeatherKey(lat, lon) && k in cache ==> k in cache' && cache'[k] == cache[k]
  {
    r, cache', requests := Fetch(cache, CacheKeys.WeatherKey(lat, lon), network);
  }

  /** `fetch_air_quality(lat, lon)` with its default arguments. */
  method FetchAirQuality(cache: Cache, lat: real, lon: real, network: seq<HttpOutcome>)
    returns (r: Result<Payload, FetchError>, cache': Cache, requests: nat)
    requires |network| == MaxAttempts
    ensures CacheKeys.AirQualityKey(lat, lon) in cache ==>
      r == Success(cache[CacheKeys.AirQualityKey(lat, lon)]) && cache' == cache && requests == 0
    ensures r.Failure? ==>
      && CacheKeys.AirQualityKey(lat, lon) !in cache
      && (forall i :: 0 <= i < MaxAttempts ==> network[i].HttpError?)
      && cache' == cache && requests == MaxAttempts
    ensures r.Success? <==> CanServe(cache, CacheKeys.AirQualityKey(lat, lon), network)
    ensures r.Success? ==> Served(cache, CacheKeys.AirQualityKey(lat, lon), network, cache', r.value)
    ensures Grows(cache, cache')
    ensures forall k :: k != CacheKeys.AirQualityKey(lat, lon) && k in cache ==> k in cache' && cache'[k] == cache[k]
  {
    r, cache', requests := Fetch(cache, CacheKeys.AirQualityKey(lat, lon), network);
  }
}
