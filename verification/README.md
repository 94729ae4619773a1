# Travel recommendation core: Open-Meteo caching, aggregation and the decision rule

This project is a Dafny model of a Django service. The service answers one question: should a
traveller go to a destination district on a given date? It also ranks the coolest and cleanest
districts of Bangladesh. The model covers the pure core of that service:

- **Cache keys** (`cache_keys.dfy`). `_norm_coords` and `_cache_key` round both coordinates to
  two decimals and print them as fixed-point text. The key also carries the request prefix and
  the `fd=…|tz=…` extra.
- **Retry** (`retry.dfy`). The tenacity policy allows at most 3 attempts. The first attempt that
  returns wins. If all three raise, a retry error comes out.
- **Forecast cache** (`forecast_cache.dfy`). `fetch_weather` and `fetch_air_quality` take a
  cache hit/miss/store path inside the retry. The Django cache is a `map<string, Payload>`. The
  HTTP outcome of each attempt is a parameter.
- **Payload parsing** (`series.dfy`, `dates.dfy`). This covers `_hourly_series`, `hourly_map`
  and `value_on_date_at_hour`, with the `YYYY-MM-DDTHH:00` timestamp built from
  `date.isoformat()`.
- **Aggregates** (`aggregates.dfy`, `rounding.dfy`). This covers `_values_at_hour`,
  `_daily_groups`, `_avg` with Python's `round(x, 1)` (round half to even), and the two weekly
  aggregates.
- **Service object** (`service.dfy`). `OpenMeteoService` has eight methods. The six lookups are in
  `service.dfy`; `fetch_weather` and `fetch_air_quality` are the fetches of `forecast_cache.dfy`.
- **Decision rule** (`recommendation.dfy`). `_qual_temp`, `_qual_pm` and the decision body of
  `TravelRecommendationView.get` are modelled.
- **View pipeline** (`recommend_view.dfy`). The view makes four cached lookups and assembles the
  response record.
- **Legacy aggregates** (`legacy.dfy`). The older functions in `recommendations/utils.py` select
  hours by the substring `"14:00"`, do not filter `None` readings, and raise
  `KeyError`/`IndexError`/`TypeError` on malformed payloads. The model proves where they agree
  with the service aggregates and shows concrete payloads where they do not.
- **Periodic task** (`batch.dfy`, `districts.dfy`). `update_district_weather_and_air_quality`
  refreshes the districts one by one and counts the updates.
- **Top-10 view** (`top_districts.dfy`). This is `order_by("avg_temp_2pm", "avg_pm2_5")[:10]`.

Python floats are modelled as Dafny `real`s, and JSON payloads as the `Payload` datatype. An
absent `hourly`, `time` or field column is `None` or a missing map key. The network, the clock
and the cache contents are explicit parameters.

## Model

| member | source | states |
|---|---|---|
| Rounding.RoundHalfEven | recommendations/services/open_meteo.py:166 | the integer `round` picks is within one half of its argument |
| Rounding.RoundHalfEvenTie | recommendations/services/open_meteo.py:166 | on an exact tie, `round` picks the even neighbour, one of floor and floor + 1 |
| Rounding.Round1 | recommendations/services/open_meteo.py:166 | `round(x, 1)` is a whole number of tenths within 0.05 of `x`, an even number of tenths when `x` lies exactly halfway |
| Rounding.IsRound1Unique | recommendations/services/open_meteo.py:166 | at most one value is `x` to one decimal place, so the three conditions fix `round(x, 1)` |
| Rounding.Round1Monotone | recommendations/services/open_meteo.py:166 | rounding to one decimal preserves order |
| Rounding.Round1Positive | recommendations/views/recommendation.py:96 | a rounded difference is positive exactly when the raw difference exceeds 0.05 |
| CacheKeys.NormAxisAsWritten | recommendations/services/open_meteo.py:32-34 | `round(float(x), precision)` keeps the sign of its argument: the magnitude is the absolute rounded units, the sign bit is set exactly for a negative argument, and the result is -0.0 exactly when a negative argument rounds to zero |
| CacheKeys.NormAxisAsWrittenIff | recommendations/services/open_meteo.py:32-34 | two coordinates round to the same float exactly when they round to the same units and have the same sign |
| CacheKeys.FormatFixed | recommendations/services/open_meteo.py:41 | the `:.{precision}f` text holds no `,` or `:`, and starts with `-` exactly when the sign bit is set |
| CacheKeys.FormatFixedInjective | recommendations/services/open_meteo.py:41 | the `:.{precision}f` text of a normalised coordinate determines the coordinate |
| CacheKeys.JoinInjective | recommendations/services/open_meteo.py:41 | under one prefix, two keys are equal exactly when both printed coordinates and the `extra` suffix are equal |
| CacheKeys.CacheKeyAsWrittenIff | recommendations/services/open_meteo.py:37-41 | as written, two requests share a key exactly when both coordinates round to the same units and each coordinate has the same sign in both requests |
| CacheKeys.CacheKey | recommendations/services/open_meteo.py:37-41 | the corrected key equals the key as written whenever no coordinate is negative and rounds to zero |
| CacheKeys.CacheKeyIff | recommendations/services/open_meteo.py:37-41 | two requests share a key exactly when both their coordinates round to the same values |
| CacheKeys.NegativeZeroSplitsKey | recommendations/services/open_meteo.py:32-41 | as written, latitudes -0.001 and 0.001 round to the same value but get different keys |
| CacheKeys.WeatherAndAirQualityKeysDiffer | recommendations/services/open_meteo.py:53-91 | no weather key equals an air-quality key, for any coordinates |
| CacheKeys.WeatherKey | recommendations/services/open_meteo.py:53-58 | the weather key with the default arguments equals the key `fetch_weather` builds, unless a coordinate is negative and rounds to zero |
| CacheKeys.AirQualityKey | recommendations/services/open_meteo.py:86-91 | the air-quality key with the default arguments equals the key `fetch_air_quality` builds, unless a coordinate is negative and rounds to zero |
| CacheKeys.NearbyPointsShareKeys | recommendations/services/open_meteo.py:53-58 | with the default arguments and the corrected key of the finding below, two points share their weather entry, and also their air-quality entry, exactly when both coordinates agree at two decimals |
| Retry.RetryCall | recommendations/services/open_meteo.py:24-27 | at most 3 attempts are made, all but the last raised, the result is the last attempt's value, and there is no result exactly when all 3 raised |
| Retry.RetryFromSpec | recommendations/services/open_meteo.py:24-27 | the same guarantee for the retry loop started at any attempt after only failures |
| Retry.FirstReturnWins | recommendations/services/open_meteo.py:24-27 | after k failures, a returning attempt k ends the retry with its value after k + 1 calls |
| ForecastCache.Fetch | recommendations/services/open_meteo.py:59-75 | a hit returns the stored payload with no request and an unchanged cache; a miss stores and returns the first successful response; three failures raise with the cache unchanged |
| ForecastCache.FetchWeather | recommendations/services/open_meteo.py:44-75 | `fetch_weather` succeeds exactly when its key is cached or some attempt responds, serves the stored or the first response, and leaves every other entry in place |
| ForecastCache.FetchAirQuality | recommendations/services/open_meteo.py:78-107 | the same guarantees for `fetch_air_quality` under its own key |
| Series.Zip | recommendations/services/open_meteo.py:123 | `zip` has the shorter length and pairs elements position by position |
| Series.Times | recommendations/services/open_meteo.py:120-121 | the time list, or empty when `hourly` or `time` is missing |
| Series.Column | recommendations/services/open_meteo.py:120-122 | the field column, or empty when `hourly` or the field is missing |
| Series.HourlySeries | recommendations/services/open_meteo.py:115-123 | the series has the length of the shorter of `time` and the field column, and entry i pairs `time[i]` with `field[i]` |
| Series.MissingPartsGiveEmptySeries | recommendations/services/open_meteo.py:120-122 | a missing `hourly`, `time` or field gives the empty series |
| Series.HourlyMap | recommendations/services/open_meteo.py:126-128 | the map's keys are the timestamps of the series, and a repeated timestamp keeps its last value |
| Series.ValueOnDateAtHour | recommendations/services/open_meteo.py:131-139 | the lookup returns the last reading stamped with the date and hour, and None when no reading has that stamp |
| Series.Keep | recommendations/services/open_meteo.py:146 | the kept values are exactly the present values of the selected readings |
| Series.KeepEmptyIff | recommendations/services/open_meteo.py:146 | nothing is kept exactly when every selected reading is None |
| Series.Picked | recommendations/services/open_meteo.py:146 | the picked positions are strictly increasing and are exactly the positions of the present readings the test selects |
| Series.KeepEnumerates | recommendations/services/open_meteo.py:146 | the kept values are the values at the picked positions, one per position, in series order |
| Series.ValuesAtHour | recommendations/services/open_meteo.py:142-146 | one value per present reading whose timestamp ends with `THH:00`: the k-th value is the reading at the k-th such position in series order; the list is empty exactly when all such readings are None |
| Dates.IsoFormat | recommendations/services/open_meteo.py:138 | `isoformat()` is 10 characters: padded year, `-`, month, `-`, day, with no `T` or `:` |
| Dates.IsoDateRoundTrip | recommendations/services/open_meteo.py:138 | parsing the ISO text of a valid date gives back the date |
| Dates.IsoFormatInjective | recommendations/services/open_meteo.py:138 | distinct valid dates have distinct ISO texts |
| Dates.HourStamp | recommendations/services/open_meteo.py:138 | the stamp starts with the ISO date, has `T` at position 10, ends with `:00`, and holds the two-digit hour for hours below 100 |
| Dates.HourStampInjective | recommendations/services/open_meteo.py:138 | distinct (date, hour) pairs give distinct stamps |
| Dates.DayOfHourStamp | recommendations/services/open_meteo.py:160 | `split("T", 1)[0]` of a stamp is its ISO date |
| Text.ZeroPaddedFits | recommendations/services/open_meteo.py:145 | `{hour:02d}` of an hour below 100 is two digits that denote the hour |
| Text.BeforeFirst | recommendations/services/open_meteo.py:160 | the day part is a prefix without `T`, ended by the first `T` or by the end of the text |
| Text.ContainsIff | recommendations/utils.py:44 | the substring test holds exactly when the needle occurs at some position |
| Aggregates.Avg | recommendations/services/open_meteo.py:165-166 | `_avg` is None exactly for the empty list, and otherwise the mean to one decimal place, ties to an even tenth |
| Aggregates.AvgWithin | recommendations/services/open_meteo.py:165-166 | the average of values all within [lo, hi] lies within [lo - 0.05, hi + 0.05] |
| Aggregates.WeeklyAvgTemperatureAt2pm | recommendations/services/open_meteo.py:174-180 | None exactly when every reading stamped `T14:00` is None; otherwise the mean of the collected 2 PM values to one decimal place |
| Aggregates.WeeklyTemperatureWithin | recommendations/services/open_meteo.py:174-180 | when every collected 2 PM value lies in [lo, hi], the weekly value lies within [lo - 0.05, hi + 0.05] |
| Aggregates.DailyGroups | recommendations/services/open_meteo.py:149-162 | no two groups share a day |
| Aggregates.DailyGroupsSpec | recommendations/services/open_meteo.py:149-162 | every group is non-empty; there is a group for a day exactly when some present reading falls on it; each group holds exactly that day's present values in order |
| Aggregates.DayOf | recommendations/services/open_meteo.py:160 | the day is a prefix of the timestamp without `T`, ended by the first `T` or by the end of the text |
| Aggregates.Days | recommendations/services/open_meteo.py:149-162 | each day that has a present reading is listed exactly once, and no other day |
| Aggregates.GroupDaysAreDays | recommendations/services/open_meteo.py:149-162 | the groups are one per listed day, in the same order |
| Aggregates.DailyMeansAreDayMeans | recommendations/services/open_meteo.py:187-195 | the per-day averages are, day by day, the means of each day's present readings |
| Aggregates.DailyMeans | recommendations/services/open_meteo.py:191-195 | at most one mean per group, each the mean of a non-empty group; when no group is empty, the k-th mean is the mean of the k-th group |
| Aggregates.WeeklyAvgPm25 | recommendations/services/open_meteo.py:183-197 | None exactly when every PM2.5 reading is None; otherwise, to one decimal place, the mean over the days with a present reading of each day's mean, so every day weighs the same |
| Aggregates.WeeklyPm25Within | recommendations/services/open_meteo.py:183-197 | when every present reading lies in [lo, hi], the weekly value lies within [lo - 0.05, hi + 0.05] |
| Aggregates.EachDayWeighsEqually | recommendations/services/open_meteo.py:183-197 | on a two-day example the weekly value (22.5) differs from the flat hourly average (20.0) |
| Service.WeatherTimeseries | recommendations/services/open_meteo.py:212-213 | the map is `hourly_map` of the payload served for the weather key; it fails exactly when nothing can serve it |
| Service.AirQualityTimeseries | recommendations/services/open_meteo.py:215-216 | the same for the air-quality key and the `pm2_5` column |
| Service.TemperatureOn | recommendations/services/open_meteo.py:219-220 | the temperature is the value at that date and hour in the served weather payload |
| Service.Pm25On | recommendations/services/open_meteo.py:222-223 | the PM2.5 is the value at that date and hour in the served air-quality payload |
| Service.WeeklyAvgTemp2pm | recommendations/services/open_meteo.py:226-227 | the weekly 2 PM temperature of the served weather payload |
| Service.WeeklyAvgPm25 | recommendations/services/open_meteo.py:229-230 | the weekly PM2.5 of the served air-quality payload |
| Recommendation.QualTemp | recommendations/views/recommendation.py:15-21 | significantly iff abs(delta) >= 5, moderately iff 2 <= abs(delta) < 5, slightly otherwise |
| Recommendation.QualPm | recommendations/views/recommendation.py:24-30 | significantly iff abs(delta) >= 20, moderately iff 10 <= abs(delta) < 20, slightly otherwise |
| Recommendation.QualifySymmetric | recommendations/views/recommendation.py:15-30 | the qualifier ignores the sign of the difference |
| Recommendation.QualifyMonotone | recommendations/views/recommendation.py:15-30 | a larger absolute difference never gets a weaker qualifier |
| Recommendation.TemperatureBandsAreFiner | recommendations/views/recommendation.py:15-30 | on one difference the temperature qualifier is never weaker than the PM2.5 qualifier |
| Recommendation.Decide | recommendations/views/recommendation.py:70-114 | recommended exactly when all four values are present and the destination is strictly cooler and strictly cleaner; "insufficient data" exactly when a value is missing; the "cooler and cleaner" reason exactly for a Recommended verdict; the differences are `round(dest - cur, 1)`; the not-better clauses hotter iff the rounded temperature difference is positive, same temperature otherwise, and likewise for air, with one temperature clause exactly when the destination is not cooler and one air clause exactly when its air is not cleaner; the fallback text never arises |
| Recommendation.NeverRecommendedBothWays | recommendations/views/recommendation.py:79-90 | if going from A to B is recommended, going from B to A is not |
| Recommendation.SamePlaceIsNotBetter | recommendations/views/recommendation.py:91-114 | comparing a place with itself gives "the same temperature and the same air quality" |
| Recommendation.RoundedDifferenceInText | recommendations/views/recommendation.py:80-98 | a destination 0.01 °C cooler is recommended as "0.0 °C slightly cooler"; one 0.04 °C hotter is reported as "the same temperature" |
| RecommendView.MeasuredAt | recommendations/views/recommendation.py:53 | `measured_at` is the 14:00 stamp the lookups search for |
| RecommendView.Respond | recommendations/views/recommendation.py:116-135 | both location records carry the 2 PM readings of their payloads and the common stamp, and the decision is the rule applied to those readings |
| RecommendView.FetchOne | recommendations/views/recommendation.py:62-68 | a lookup fails exactly when its key is not cached and all attempts fail, leaving the cache as it was; otherwise it returns the stored payload or the first response, stored under the key |
| RecommendView.FetchBoth | recommendations/views/recommendation.py:62-65 | the pair of lookups fails exactly when the first fails or the second needs the network under another key and all its attempts fail; otherwise each payload is the stored entry or its first response, the same payload twice under a shared key; only the two keys are added |
| RecommendView.Recommend | recommendations/views/recommendation.py:46-135 | the view raises a validation error exactly when one of the four lookups raises; otherwise every payload is the stored entry or the first response of its own lookup, and the response is the rule applied to those four payloads |
| Legacy.Columns | recommendations/utils.py:40-41 | KeyError exactly when `hourly`, `time` or the column is missing; otherwise the time list and the column |
| Legacy.Positions | recommendations/utils.py:44 | the positions of `enumerate(times)` the test picks: strictly increasing, and exactly the picked ones |
| Legacy.PickWhere | recommendations/utils.py:44 | the comprehension raises IndexError exactly when a picked timestamp has no reading at its position; otherwise it is empty exactly when no timestamp is picked |
| Legacy.PickWhereEnumerates | recommendations/utils.py:44 | the comprehension holds one reading per picked position, the k-th being `temps` at the k-th picked position |
| Legacy.PickedAllPresent | recommendations/utils.py:44-45 | the picked list holds no `None` exactly when every picked position holds a reading |
| Legacy.LegacyWeeklyTemperature | recommendations/utils.py:40-45 | KeyError exactly for a missing key; IndexError exactly when a `"14:00"` timestamp is past the end of the temperatures; TypeError exactly when, otherwise, a picked reading is `None`; `None` exactly when no timestamp contains `"14:00"`; otherwise the mean of the picked readings to one decimal place |
| Legacy.LegacyWeeklyPm25 | recommendations/utils.py:74-93 | the result fails exactly when `hourly`, `time` or `pm2_5` is missing |
| Legacy.DailyMeansAll | recommendations/utils.py:85-88 | one unguarded mean per day group |
| Legacy.SubstringMatchesSuffix | recommendations/utils.py:44 | on `YYYY-MM-DDTHH:MM` timestamps, containing `"14:00"` is the same as ending with `T14:00` |
| Legacy.LegacyTemperatureMatchesService | recommendations/utils.py:40-45 | on payloads with every key and provider timestamps, where every 2 PM position holds a present temperature (the column may be shorter than the time list), the legacy value equals the service value |
| Legacy.LegacyPm25MatchesService | recommendations/utils.py:74-95 | whenever the columns exist, the legacy PM2.5 value equals the service value |
| Legacy.LegacyRaisesOnMissingHourly | recommendations/utils.py:40-41 | a payload without `hourly` raises KeyError in the legacy copy, where the service copy returns None |
| Legacy.LegacyRaisesOnMissingReading | recommendations/utils.py:44-45 | for any timestamp containing `"14:00"`, a `null` reading there raises TypeError in the legacy copy, where the service copy returns None |
| Legacy.LegacyRaisesOnShortColumn | recommendations/utils.py:41-44 | for any timestamp containing `"14:00"`, an empty temperature list raises IndexError in the legacy copy, where the service copy returns None |
| Legacy.PickMatchesKeep | recommendations/utils.py:44 | when two selections agree on every timestamp and every picked position holds a present reading, the comprehension yields the same numbers as the service's filter over the `zip`, even when the readings run out early |
| Legacy.LegacyFetch | recommendations/utils.py:15-47 | a retried computation returns exactly when some attempt is accepted, and returns the value of the first accepted attempt |
| Legacy.LegacyFetchWeather | recommendations/utils.py:15-47 | the retried call returns exactly when some attempt responds with a payload whose 2 PM average does not raise, and then returns the average of the first such attempt, every earlier attempt having raised |
| Legacy.LegacyFetchAirQuality | recommendations/utils.py:50-95 | the same with the PM2.5 average |
| Batch.FetchDistrict | recommendations/tasks.py:27-32 | the district's fetch succeeds exactly when both retried calls return, and then carries their two values |
| Batch.Refresh | recommendations/tasks.py:34-38 | a district is changed only when both values are present; then it takes them and the new timestamp, and nothing else changes |
| Batch.RefreshIdempotent | recommendations/tasks.py:34-38 | refreshing twice with the same fetch is refreshing once at the later time |
| Batch.UpdatedIndicesStep | recommendations/tasks.py:34-38 | each district adds one to the count exactly when its fetch gave two values |
| Batch.UpdateDistricts | recommendations/tasks.py:23-40 | skipped districts are unchanged; updated districts take the fetched values and their own save time and nothing else; the count is the number of updated districts |
| TopDistricts.NotAfterTransitive | recommendations/views/district.py:8 | the (temperature, PM2.5) ordering is transitive |
| TopDistricts.NotAfterTotal | recommendations/views/district.py:8 | any two districts are comparable |
| TopDistricts.Insert | recommendations/views/district.py:8 | insertion adds exactly the one district |
| TopDistricts.InsertSorted | recommendations/views/district.py:8 | inserting into a sorted list keeps it sorted |
| TopDistricts.Sort | recommendations/views/district.py:8 | the ordering is a sorted permutation of the districts |
| TopDistricts.SortedPrefix | recommendations/views/district.py:8 | a prefix of a sorted list is sorted, and every element left out is not before its last element |
| TopDistricts.Top | recommendations/views/district.py:8 | the slice has min(10, n) districts, is sorted, is drawn from the districts, and no excluded district sorts before its last one |
| TopDistricts.TopHasNoDuplicates | recommendations/views/district.py:8 | distinct districts give a slice without repeats |
| TopDistricts.TopIgnoresNulls | recommendations/views/district.py:8 | when every district is rated, where the database puts NULLs does not matter |

## Left out

- HTTP: the requests, URLs, query parameters, timeouts and `raise_for_status` are not modelled. Each attempt's outcome is a parameter: a JSON payload or an error.
- Cache expiry: the cache TTLs (`WEATHER_CACHE_TTL`, `AIR_QUALITY_CACHE_TTL`) are left out. The cache never expires entries on its own.
- Retry waits: the exponential backoff times are left out. Only the limit of three attempts is modelled.
- Concurrency: the Django cache is shared between processes, and other writers are not modelled. Each fetch sees the cache map it is given.
- Rounding.Round1: CPython's `round(x, 1)` rounds the exact binary value of the double `x`, half to even. The model rounds an exact real, so a decimal that has no exact double differs: `round(0.15, 1)` is 0.1 in Python, because the double nearest 0.15 lies below it, and 0.2 in the model. Sums, differences and divisions are exact, and the result is not rounded back to a double.
- Payload: the model takes only the object shape the Open-Meteo responses document: an optional `hourly` object holding an optional time list and columns of numbers or `null`. A body that is not a JSON object, a truthy `hourly` that is not an object, and lists holding other JSON values are not representable. In the source, such a body is still cached, and the later `.get` calls raise AttributeError, which the view turns into a ValidationError. Those error paths are not modelled.
- Series.HourlySeries: a JSON `null` and a missing key are both `None` or an absent map entry. An empty list and a falsy value are treated the same, as `or []` does.
- Legacy.LegacyWeeklyTemperature: a JSON `null` for `hourly` makes the source raise TypeError (`None["time"]`). The model reports KeyError for it, because null and missing are merged.
- Legacy.LegacyWeeklyTemperature: the TypeError from `sum` over a list holding `None` is the only TypeError modelled. Non-numeric JSON values cannot occur in the payload type.
- Legacy.LegacyWeeklyTemperature: a JSON `null` temperature column is merged with a missing one and raises KeyError. In the source, `null` gives `temps = None`, so a payload with no timestamp containing `"14:00"` returns None, and one with such a timestamp raises TypeError.
- Legacy.Columns: for the same reason, a `null` column or `time` list raises KeyError in the model, where the source raises TypeError or, as above, returns None.
- Dates.HourStamp: hours of 100 and above (`{hour:02d}` with three digits) are allowed but only constrained generically. The callers use 14.
- ORM: models, `save(update_fields=…)` and the admin are left out. `auto_now` becomes an explicit time per district: the `now` of `Batch.Refresh` and `clock[i]` of `Batch.UpdateDistricts`.
- Celery: the Celery scheduling, the `Singleton` lock and logging are left out. The model is the loop body over the list of districts.
- Request handling: query validation (`RecommendationQuerySerializer`), the response serializer, URL routing and the HTTP response are left out. The model takes a validated query.
- Exception text: the text of the ValidationError detail is not modelled. The model returns a bare `ValidationError`.
- Recommendation.Decide: the reason is a structured value: the magnitudes, the rounded difference and the clause list. The exact f-string text is not modelled.
- RecommendView.Respond: `getattr(dest, "name", str(dest.pk))` always finds a name in the model, because every District has one.
- TopDistricts.Top: rows that tie on both averages are returned by the database in an unspecified order. The model uses stable insertion order, which is one admissible order.
- TopDistricts.Top: where NULL averages sort depends on the database backend. It is a parameter `nullsFirst`.
- `OpenMeteoService.fetch_weather`, `OpenMeteoService.fetch_air_quality`: these are `ForecastCache.FetchWeather` and `ForecastCache.FetchAirQuality` at the service's coordinates. No separate member exists.
- Other arguments: fetches with arguments other than the defaults (`forecast_days=7`, `timezone="auto"`) are modelled only through `CacheKeys.CacheKey`, because nothing in the core passes them.
- ForecastCache.FetchWeather: the cache key is the corrected `CacheKeys.CacheKey` of the finding below. As written, a latitude or longitude in (-0.005, 0) gets its own entry (`-0.00`) instead of sharing the `0.00` entry; `CacheKeys.CacheKeyAsWrittenIff` states the key as written.
- ForecastCache.FetchAirQuality: uses the corrected key in the same way.
- CacheKeys.NormAxisAsWritten: the same real-number abstraction as `Rounding.Round1` applies to `round(float(x), precision)`: `round(1.015, 2)` is 1.01 in Python and 1.02 in the model.
- CacheKeys.WeatherKey: built from the corrected key; it equals the key as written except for a coordinate in (-0.005, 0).
- CacheKeys.AirQualityKey: built from the corrected key in the same way.
- CacheKeys.NormAxis: the corrected rounding that clears the sign of a result that rounds to zero; the keys of the cache use it. `CacheKeys.NormAxisAsWritten` is `_norm_coords` as written.
- CacheKeys.NearbyPointsShareKeys: stated for the corrected key. As written, two points share an entry only when, in addition, each coordinate has the same sign in both (`CacheKeys.CacheKeyAsWrittenIff`).

## Findings

| source | as written | input that shows it | evidently intended | confidence | as-written member | corrected member |
|---|---|---|---|---|---|---|
| recommendations/services/open_meteo.py:32-41 | `round(float(lat), 2)` keeps the sign of a coordinate that rounds to zero, and `:.2f` prints it as `-0.00` | latitude -0.001 versus 0.001 with the same longitude: keys `…:-0.00,…` and `…:0.00,…` | points that round to the same coordinates share one cache entry | not executed | CacheKeys.NegativeZeroSplitsKey | CacheKeys.CacheKeyIff |
