/** Calendar dates and the hourly timestamps the forecast provider uses.
    A date is written in the full-date form of section 5.6 of RFC 3339
    (`YYYY-MM-DD`), which is what Python's `date.isoformat()` produces; an
    hourly timestamp appends `T`, the two-digit hour and `:00`. */
module Dates {

  import opened Text
  import opened Wrappers

  datatype Date = Date(year: nat, month: nat, day: nat)

  predicate IsLeapYear(y: nat) {
    y % 4 == 0 && (y % 100 != 0 || y % 400 == 0)
  }

  /** Maximum day of a month, as in the table of section 5.7 of RFC 3339. */
  function DaysInMonth(y: nat, m: nat): nat
    requires 1 <= m <= 12
  {
    if m == 2 then (if IsLeapYear(y) then 29 else 28)
    else if m == 4 || m == 6 || m == 9 || m == 11 then 30
    else 31
  }

  /** The dates Python's `datetime.date` can hold. */
  predicate ValidDate(d: Date) {
    1 <= d.year <= 9999 && 1 <= d.month <= 12 && 1 <= d.day <= DaysInMonth(d.year, d.month)
  }

  /** The shape of `a-b-c` for a four-digit `a` and two-digit `b`, `c`. */
  lemma DashJoinShape(a: string, b: string, c: string)
    requires |a| == 4 && |b| == 2 && |c| == 2
    requires AllDigits(a) && AllDigits(b) && AllDigits(c)
    ensures var s := a + "-" + b + "-" + c;
      && |s| == 10 && s[4] == '-' && s[7] == '-'
      && s[..4] == a && s[5..7] == b && s[8..] == c
      && 'T' !in s && ':' !in s
  {
    var s := a + "-" + b + "-" + c;
    assert forall i :: 0 <= i < 10 && i != 4 && i != 7 ==> IsDigit(s[i]);
  }

  /** `d.isoformat()` */
  function IsoFormat(d: Date): (s: string)
    requires ValidDate(d)
    ensures |s| == 10
    ensures s[4] == '-' && s[7] == '-'
    ensures s[..4] == ZeroPadded(d.year, 4)
    ensures s[5..7] == ZeroPadded(d.month, 2)
    ensures s[8..] == ZeroPadded(d.day, 2)
    ensures 'T' !in s && ':' !in s
  {
    var y, m, dd := ZeroPadded(d.year, 4), ZeroPadded(d.month, 2), ZeroPadded(d.day, 2);
    DateFieldsFit(d);
    DashJoinShape(y, m, dd);
    y + "-" + m + "-" + dd
  }

  /** The year takes four digits and the month and day two, and each reads back as itself. */
  lemma DateFieldsFit(d: Date)
    requires ValidDate(d)
    ensures |ZeroPadded(d.year, 4)| == 4 && DigitsValue(ZeroPadded(d.year, 4)) == d.year
    ensures |ZeroPadded(d.month, 2)| == 2 && DigitsValue(ZeroPadded(d.month, 2)) == d.month
    ensures |ZeroPadded(d.day, 2)| == 2 && DigitsValue(ZeroPadded(d.day, 2)) == d.day
  {
    assert Pow10(2) == 100;
    assert Pow10(4) == 10000 by {
      assert Pow10(3) == 10 * Pow10(2);
    }
    ZeroPaddedFits(d.year, 4);
    ZeroPaddedFits(d.month, 2);
    ZeroPaddedFits(d.day, 2);
  }

  /** Reads a full-date back; `None` for anything that is not one. */
  function ParseIsoDate(s: string): (r: Option<Date>)
    ensures r.Some? ==> ValidDate(r.value)
  {
    if |s| == 10 && s[4] == '-' && s[7] == '-'
       && AllDigits(s[..4]) && AllDigits(s[5..7]) && AllDigits(s[8..])
    then
      var d := Date(DigitsValue(s[..4]), DigitsValue(s[5..7]), DigitsValue(s[8..]));
      if ValidDate(d) then Some(d) else None
    else None
  }

  lemma IsoDateRoundTrip(d: Date)
    requires ValidDate(d)
    ensures ParseIsoDate(IsoFormat(d)) == Some(d)
  {
    var s := IsoFormat(d);
    DateFieldsFit(d);
    assert AllDigits(s[..4]) && AllDigits(s[5..7]) && AllDigits(s[8..]);
    assert Date(DigitsValue(s[..4]), DigitsValue(s[5..7]), DigitsValue(s[8..])) == d;
  }

  /** Distinct dates never share an ISO form. */
  lemma IsoFormatInjective(d: Date, e: Date)
    requires ValidDate(d) && ValidDate(e)
    requires IsoFormat(d) == IsoFormat(e)
    ensures d == e
  {
    IsoDateRoundTrip(d);
    IsoDateRoundTrip(e);
  }

  lemma StampShape(s: string, iso: string, hh: string)
    requires |iso| == 10 && s == iso + "T" + hh + ":00"
    ensures |s| == 14 + |hh|
    ensures s[..10] == iso && s[10] == 'T' && s[11..11 + |hh|] == hh
    ensures s[|s| - 3..] == ":00"
  {
  }

  /** `f"{d.isoformat()}T{hour:02d}:00"`: the key of the reading at `hour` on `d`. */
  function HourStamp(d: Date, hour: nat): (s: string)
    requires ValidDate(d)
    ensures |s| >= 16
    ensures StartsWith(s, IsoFormat(d))
    ensures s[10] == 'T'
    ensures EndsWith(s, ":00")
    ensures hour < 100 ==> |s| == 16 && s[11..13] == ZeroPadded(hour, 2)
  {
    var hh := ZeroPadded(hour, 2);
    var s := IsoFormat(d) + "T" + hh + ":00";
    StampShape(s, IsoFormat(d), hh);
    assert hour < 100 ==> |hh| == 2 by {
      if hour < 100 {
        ZeroPaddedFits(hour, 2);
      }
    }
    s
  }

  lemma HourStampText(d: Date, hour: nat, hh: string)
    requires ValidDate(d) && ZeroPadded(hour, 2) == hh
    ensures HourStamp(d, hour) == IsoFormat(d) + ("T" + hh + ":00")
  {
    Reassociate4(IsoFormat(d), "T", hh, ":00");
  }

  lemma Reassociate4(a: string, b: string, c: string, e: string)
    ensures a + b + c + e == a + (b + c + e)
  {
  }

  /** An hourly timestamp names exactly one (date, hour) pair. */
  lemma HourStampInjective(d: Date, h: nat, e: Date, k: nat)
    requires ValidDate(d) && ValidDate(e) && h < 100 && k < 100
    requires HourStamp(d, h) == HourStamp(e, k)
    ensures d == e && h == k
  {
    var s := HourStamp(d, h);
    assert IsoFormat(d) == s[..10] == IsoFormat(e);
    IsoFormatInjective(d, e);
    ZeroPaddedFits(h, 2);
    ZeroPaddedFits(k, 2);
  }

  /** The text before the first `T` of an hourly timestamp is its date. */
  lemma DayOfHourStamp(d: Date, hour: nat)
    requires ValidDate(d)
    ensures BeforeFirst(HourStamp(d, hour), 'T') == IsoFormat(d)
  {
    var s := HourStamp(d, hour);
    var r := BeforeFirst(s, 'T');
    var iso := IsoFormat(d);
    assert s[..10] == iso;
    assert r == s[..|r|];
  }
}
