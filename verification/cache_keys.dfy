/** Cache keys (`_norm_coords`, `_cache_key`): both coordinates are rounded to
    `precision` decimal places and written with exactly that many decimals, so
    that nearby points share one cache entry:
    `"{prefix}:{lat_n:.{precision}f},{lon_n:.{precision}f}:{extra}"`. */
module CacheKeys {

  import opened Text
  import opened Rounding

  const DefaultPrecision: nat := 2
  const DefaultForecastDays: int := 7
  const DefaultTimezone: string := "auto"
  const WeatherPrefix: string := "openmeteo:weather"
  const AirQualityPrefix: string := "openmeteo:air_quality"

  /** A rounded coordinate as a float: a sign bit and a number of units of
      10^-precision. The sign bit is separate because a float keeps it on zero. */
  datatype Rounded = Rounded(negative: bool, units: nat)

  function Abs(n: int): nat {
    if n < 0 then -n else n
  }

  /** `round(float(x), precision)` as written. Python's rounding keeps the sign of
      its argument, so a small negative coordinate rounds to `-0.0`. */
  function NormAxisAsWritten(x: real, precision: nat): (r: Rounded)
    ensures r.units == Abs(RoundUnits(x, precision))
    ensures r.negative <==> x < 0.0
    ensures r == Rounded(true, 0) <==> x < 0.0 && RoundUnits(x, precision) == 0
  {
    Rounded(x < 0.0, Abs(RoundUnits(x, precision)))
  }

  /** The rounding with a zero result always made positive (`-0.0` becomes `0.0`). */
  function NormAxis(x: real, precision: nat): (r: Rounded)
    ensures r.negative <==> RoundUnits(x, precision) < 0
    ensures r.units == Abs(RoundUnits(x, precision))
  {
    RoundUnitsSignOf(x, precision);
    Rounded(x < 0.0 && RoundUnits(x, precision) != 0, Abs(RoundUnits(x, precision)))
  }

  lemma RoundUnitsSignOf(x: real, p: nat)
    ensures RoundUnits(x, p) < 0 ==> x < 0.0
    ensures x < 0.0 ==> RoundUnits(x, p) <= 0
  {
    RoundHalfEvenSign(x * Pow10(p) as real);
    assert x < 0.0 ==> x * Pow10(p) as real <= 0.0;
    assert x >= 0.0 ==> x * Pow10(p) as real >= 0.0;
  }

  /** Puts a decimal point before the last `precision` digits; no point when `precision` is 0. */
  function InsertPoint(digits: string, precision: nat): (s: string)
    requires |digits| > precision && AllDigits(digits)
    ensures |s| > 0 && s[0] == digits[0]
    ensures forall i :: 0 <= i < |s| ==> IsDigit(s[i]) || s[i] == '.'
  {
    if precision == 0 then digits
    else
      var s := digits[..|digits| - precision] + "." + digits[|digits| - precision..];
      assert forall i :: 0 <= i < |s| && i != |digits| - precision ==> IsDigit(s[i]) by {
        forall i | 0 <= i < |s| && i != |digits| - precision
          ensures IsDigit(s[i])
        {
          if i < |digits| - precision {
            assert s[i] == digits[i];
          } else {
            assert s[i] == digits[i - 1];
          }
        }
      }
      s
  }

  /** The unsigned part of `f"{v:.{precision}f}"`: at least one integer digit, then the decimals. */
  function FixedBody(units: nat, precision: nat): (s: string)
    ensures |s| > 0 && s[0] != '-'
    ensures forall i :: 0 <= i < |s| ==> IsDigit(s[i]) || s[i] == '.'
  {
    InsertPoint(ZeroPadded(units, precision + 1), precision)
  }

  lemma FixedBodyInjective(m: nat, n: nat, precision: nat)
    requires FixedBody(m, precision) == FixedBody(n, precision)
    ensures m == n
  {
    InsertPointInjective(ZeroPadded(m, precision + 1), ZeroPadded(n, precision + 1), precision);
    ZeroPaddedValue(m, precision + 1);
    ZeroPaddedValue(n, precision + 1);
  }

  /** `f"{v:.{precision}f}"` for a value that already has `precision` decimals; a set sign bit prints `-`. */
  function FormatFixed(r: Rounded, precision: nat): (s: string)
    ensures ',' !in s && ':' !in s
    ensures |s| > 0 && (s[0] == '-' <==> r.negative)
  {
    var body := FixedBody(r.units, precision);
    if r.negative then "-" + body else body
  }

  lemma InsertPointInjective(d: string, e: string, precision: nat)
    requires |d| > precision && |e| > precision && AllDigits(d) && AllDigits(e)
    requires InsertPoint(d, precision) == InsertPoint(e, precision)
    ensures d == e
  {
    if precision > 0 {
      var s := InsertPoint(d, precision);
      assert |d| == |e|;
      assert d[..|d| - precision] == s[..|d| - precision] == e[..|e| - precision];
      assert d[|d| - precision..] == s[|d| - precision + 1..] == e[|e| - precision..];
      assert d == d[..|d| - precision] + d[|d| - precision..];
      assert e == e[..|e| - precision] + e[|e| - precision..];
    }
  }

  /** Two rounded values print alike only when they are the same float, sign bit included. */
  lemma FormatFixedInjective(a: Rounded, b: Rounded, precision: nat)
    requires FormatFixed(a, precision) == FormatFixed(b, precision)
    ensures a == b
  {
    var s := FormatFixed(a, precision);
    var ba := FixedBody(a.units, precision);
    var bb := FixedBody(b.units, precision);
    assert a.negative == b.negative;
    if a.negative {
      assert ba == s[1..] == bb;
    }
    FixedBodyInjective(a.units, b.units, precision);
  }

  function Join(prefix: string, lat: Rounded, lon: Rounded, precision: nat, extra: string): (k: string)
    ensures k == (prefix + ":") + (FormatFixed(lat, precision) + [','] + (FormatFixed(lon, precision) + [':'] + extra))
  {
    var a, b := FormatFixed(lat, precision), FormatFixed(lon, precision);
    Reassociate(prefix, a, b, extra);
    prefix + ":" + a + "," + b + ":" + extra
  }

  lemma Reassociate(h: string, a: string, b: string, e: string)
    ensures h + ":" + a + "," + b + ":" + e == (h + ":") + (a + [','] + (b + [':'] + e))
  {
  }

  /** `_cache_key(prefix, lat, lon, precision=precision, extra=extra)` as written. */
  function CacheKeyAsWritten(prefix: string, lat: real, lon: real, precision: nat, extra: string): string {
    Join(prefix, NormAxisAsWritten(lat, precision), NormAxisAsWritten(lon, precision), precision, extra)
  }

  /** The cache key with `-0.0` normalised to `0.0`; the rest of the model uses this one. It is the
      key as written for every coordinate pair except a negative coordinate that rounds to zero. */
  function CacheKey(prefix: string, lat: real, lon: real, precision: nat, extra: string): (k: string)
    ensures (0.0 <= lat || RoundUnits(lat, precision) != 0) && (0.0 <= lon || RoundUnits(lon, precision) != 0)
      ==> k == CacheKeyAsWritten(prefix, lat, lon, precision, extra)
  {
    RoundUnitsSignOf(lat, precision);
    RoundUnitsSignOf(lon, precision);
    Join(prefix, NormAxis(lat, precision), NormAxis(lon, precision), precision, extra)
  }

  /** As written, two rounded coordinates are the same float exactly when they round to the same
      units and their arguments have the same sign. */
  lemma NormAxisAsWrittenIff(x: real, y: real, precision: nat)
    ensures NormAxisAsWritten(x, precision) == NormAxisAsWritten(y, precision)
        <==> RoundUnits(x, precision) == RoundUnits(y, precision) && (x < 0.0 <==> y < 0.0)
  {
    RoundUnitsSignOf(x, precision);
    RoundUnitsSignOf(y, precision);
  }

  /** Under one prefix, two keys are equal exactly when their two coordinates and `extra` are. */
  lemma JoinInjective(prefix: string, a: Rounded, b: Rounded, a': Rounded, b': Rounded,
                      precision: nat, extra: string, extra': string)
    ensures Join(prefix, a, b, precision, extra) == Join(prefix, a', b', precision, extra')
        <==> a == a' && b == b' && extra == extra'
  {
    if Join(prefix, a, b, precision, extra) == Join(prefix, a', b', precision, extra') {
      var fa, fb := FormatFixed(a, precision), FormatFixed(b, precision);
      var fa', fb' := FormatFixed(a', precision), FormatFixed(b', precision);
      var head := prefix + ":";
      var k := Join(prefix, a, b, precision, extra);
      var tail, tail' := fa + [','] + (fb + [':'] + extra), fa' + [','] + (fb' + [':'] + extra');
      assert k == head + tail && k == head + tail';
      assert tail == k[|head|..] == tail';
      SplitUnique(fa, fb + [':'] + extra, fa', fb' + [':'] + extra', ',');
      SplitUnique(fb, extra, fb', extra', ':');
      FormatFixedInjective(a, a', precision);
      FormatFixedInjective(b, b', precision);
    }
  }

  /** Two requests share a cache entry exactly when their coordinates round to the
      same values (with the same prefix and request shape). */
  lemma CacheKeyIff(prefix: string, lat: real, lon: real, lat': real, lon': real, precision: nat, extra: string)
    ensures CacheKey(prefix, lat, lon, precision, extra) == CacheKey(prefix, lat', lon', precision, extra)
        <==> (RoundUnits(lat, precision) == RoundUnits(lat', precision)
              && RoundUnits(lon, precision) == RoundUnits(lon', precision))
  {
    if CacheKey(prefix, lat, lon, precision, extra) == CacheKey(prefix, lat', lon', precision, extra) {
      JoinInjective(prefix, NormAxis(lat, precision), NormAxis(lon, precision),
        NormAxis(lat', precision), NormAxis(lon', precision), precision, extra, extra);
    }
  }

  /** As written, two requests share a cache entry exactly when their coordinates round to the
      same values and each coordinate has the same sign in both, so `-0.00` and `0.00` differ. */
  lemma CacheKeyAsWrittenIff(prefix: string, lat: real, lon: real, lat': real, lon': real, precision: nat, extra: string)
    ensures CacheKeyAsWritten(prefix, lat, lon, precision, extra) == CacheKeyAsWritten(prefix, lat', lon', precision, extra)
        <==> (&& RoundUnits(lat, precision) == RoundUnits(lat', precision) && (lat < 0.0 <==> lat' < 0.0)
              && RoundUnits(lon, precision) == RoundUnits(lon', precision) && (lon < 0.0 <==> lon' < 0.0))
  {
    JoinInjective(prefix, NormAxisAsWritten(lat, precision), NormAxisAsWritten(lon, precision),
      NormAxisAsWritten(lat', precision), NormAxisAsWritten(lon', precision), precision, extra, extra);
    NormAxisAsWrittenIff(lat, lat', precision);
    NormAxisAsWrittenIff(lon, lon', precision);
  }

  /** As written, a coordinate just below zero and one just above round to the same
      value 0.0 yet get different keys, because the first prints as `-0.00`. */
  lemma NegativeZeroSplitsKey(prefix: string, extra: string)
    ensures RoundUnits(-0.001, 2) == RoundUnits(0.001, 2) == 0
    ensures CacheKeyAsWritten(prefix, -0.001, 0.0, 2, extra) != CacheKeyAsWritten(prefix, 0.001, 0.0, 2, extra)
  {
    assert RoundUnits(-0.001, 2) == RoundHalfEven(-0.1);
    assert RoundUnits(0.001, 2) == RoundHalfEven(0.1);
    var k1 := CacheKeyAsWritten(prefix, -0.001, 0.0, 2, extra);
    var k2 := CacheKeyAsWritten(prefix, 0.001, 0.0, 2, extra);
    var f1 := FormatFixed(Rounded(true, 0), 2);
    var f2 := FormatFixed(Rounded(false, 0), 2);
    assert k1[|prefix| + 1] == f1[0] == '-';
    assert k2[|prefix| + 1] == f2[0] != '-';
  }

  /** `extra=f"fd={forecast_days}|tz={timezone}"` of `fetch_weather`. */
  function WeatherExtra(forecastDays: int, timezone: string): string {
    "fd=" + IntString(forecastDays) + "|tz=" + timezone
  }

  /** `extra=f"fd={forecast_days}"` of `fetch_air_quality`. */
  function AirQualityExtra(forecastDays: int): string {
    "fd=" + IntString(forecastDays)
  }

  /** The key `fetch_weather` uses with its default arguments; it is the key as written unless a
      coordinate is negative and rounds to zero. */
  function WeatherKey(lat: real, lon: real): (k: string)
    ensures (0.0 <= lat || RoundUnits(lat, 2) != 0) && (0.0 <= lon || RoundUnits(lon, 2) != 0)
      ==> k == CacheKeyAsWritten(WeatherPrefix, lat, lon, 2, WeatherExtra(DefaultForecastDays, DefaultTimezone))
  {
    CacheKey(WeatherPrefix, lat, lon, DefaultPrecision, WeatherExtra(DefaultForecastDays, DefaultTimezone))
  }

  /** The key `fetch_air_quality` uses with its default arguments; it is the key as written unless a
      coordinate is negative and rounds to zero. */
  function AirQualityKey(lat: real, lon: real): (k: string)
    ensures (0.0 <= lat || RoundUnits(lat, 2) != 0) && (0.0 <= lon || RoundUnits(lon, 2) != 0)
      ==> k == CacheKeyAsWritten(AirQualityPrefix, lat, lon, 2, AirQualityExtra(DefaultForecastDays))
  {
    CacheKey(AirQualityPrefix, lat, lon, DefaultPrecision, AirQualityExtra(DefaultForecastDays))
  }

  /** Weather and air-quality payloads never share an entry: their prefixes differ at the 11th character. */
  lemma WeatherAndAirQualityKeysDiffer(lat: real, lon: real, lat': real, lon': real)
    ensures WeatherKey(lat, lon) != AirQualityKey(lat', lon')
  {
    var w := WeatherKey(lat, lon);
    var a := AirQualityKey(lat', lon');
    assert w[10] == (WeatherPrefix + ":")[10] == 'w';
    assert a[10] == (AirQualityPrefix + ":")[10] == 'a';
  }

  /** Points that round alike at two decimals share their weather and their air-quality entries. */
  lemma NearbyPointsShareKeys(lat: real, lon: real, lat': real, lon': real)
    ensures WeatherKey(lat, lon) == WeatherKey(lat', lon')
        <==> (RoundUnits(lat, 2) == RoundUnits(lat', 2) && RoundUnits(lon, 2) == RoundUnits(lon', 2))
    ensures AirQualityKey(lat, lon) == AirQualityKey(lat', lon')
        <==> (RoundUnits(lat, 2) == RoundUnits(lat', 2) && RoundUnits(lon, 2) == RoundUnits(lon', 2))
  {
    CacheKeyIff(WeatherPrefix, lat, lon, lat', lon', 2, WeatherExtra(DefaultForecastDays, DefaultTimezone));
    CacheKeyIff(AirQualityPrefix, lat, lon, lat', lon', 2, AirQualityExtra(DefaultForecastDays));
  }
}
