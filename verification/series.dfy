/** The forecast payload and the hourly series read from it
    (`_hourly_series`, `hourly_map`, `value_on_date_at_hour`, `_values_at_hour`).

    A payload is the provider's JSON document reduced to what is read from it:
    an optional `hourly` object holding an optional `time` list and one value
    list per requested field. A JSON `null` and a missing key are both `None`
    (or an absent map key); a reading is `None` when the provider sent `null`. */
module Series {

  import opened Wrappers
  import opened Text
  import opened Dates

  datatype Hourly = Hourly(time: Option<seq<string>>, columns: map<string, seq<Option<real>>>)

  datatype Payload = Payload(hourly: Option<Hourly>)

  /** One `(timestamp, value)` pair of a series. */
  datatype Reading = Reading(time: string, value: Option<real>)

  type Series = seq<Reading>

  const TemperatureField: string := "temperature_2m"
  const Pm25Field: string := "pm2_5"

  /** `payload.get("hourly") or {}` followed by `.get("time") or []`. */
  function Times(p: Payload): (r: seq<string>)
    ensures p.hourly.None? || p.hourly.value.time.None? ==> r == []
    ensures p.hourly.Some? && p.hourly.value.time.Some? ==> r == p.hourly.value.time.value
  {
    if p.hourly.Some? && p.hourly.value.time.Some? then p.hourly.value.time.value else []
  }

  /** `payload.get("hourly") or {}` followed by `.get(field) or []`. */
  function Column(p: Payload, field: string): (r: seq<Option<real>>)
    ensures p.hourly.None? || field !in p.hourly.value.columns ==> r == []
    ensures p.hourly.Some? && field in p.hourly.value.columns ==> r == p.hourly.value.columns[field]
  {
    if p.hourly.Some? && field in p.hourly.value.columns then p.hourly.value.columns[field] else []
  }

  /** `list(zip(times, values))`: positional pairing, cut to the shorter list. */
  function Zip(times: seq<string>, values: seq<Option<real>>): (r: Series)
    ensures |r| == if |times| <= |values| then |times| else |values|
    ensures forall i :: 0 <= i < |r| ==> r[i] == Reading(times[i], values[i])
  {
    if times == [] || values == [] then []
    else [Reading(times[0], values[0])] + Zip(times[1..], values[1..])
  }

  /** `_hourly_series(payload, field)` */
  function HourlySeries(p: Payload, field: string): (r: Series)
    ensures |r| <= |Times(p)| && |r| <= |Column(p, field)|
    ensures |r| == |Times(p)| || |r| == |Column(p, field)|
    ensures forall i :: 0 <= i < |r| ==> r[i].time == Times(p)[i] && r[i].value == Column(p, field)[i]
  {
    Zip(Times(p), Column(p, field))
  }

  /** A payload missing `hourly`, `time` or the field gives an empty series rather than an error. */
  lemma MissingPartsGiveEmptySeries(p: Payload, field: string)
    requires p.hourly.None? || p.hourly.value.time.None? || field !in p.hourly.value.columns
    ensures HourlySeries(p, field) == []
  {
  }

  /** `i` is the last position of the series whose timestamp is `t`. */
  ghost predicate IsLast(s: Series, t: string, i: int) {
    0 <= i < |s| && s[i].time == t && forall j :: i < j < |s| ==> s[j].time != t
  }

  /** `dict(series)`: one entry per distinct timestamp; a repeated timestamp keeps its last value. */
  function HourlyMap(s: Series): (m: map<string, Option<real>>)
    ensures forall t :: t in m <==> exists i :: 0 <= i < |s| && s[i].time == t
    ensures forall t, i :: IsLast(s, t, i) ==> t in m && m[t] == s[i].value
  {
    if s == [] then map[]
    else
      var prefix := s[..|s| - 1];
      var m := HourlyMap(prefix);
      var last := s[|s| - 1];
      assert forall i :: 0 <= i < |prefix| ==> prefix[i] == s[i];
      assert forall t, i :: IsLast(s, t, i) && i < |prefix| ==> IsLast(prefix, t, i) && t != last.time;
      m[last.time := last.value]
  }

  /** `hourly_map(payload, field).get(f"{d.isoformat()}T{hour:02d}:00")` */
  function ValueOnDateAtHour(p: Payload, field: string, d: Date, hour: nat): (r: Option<real>)
    requires ValidDate(d)
    ensures var s := HourlySeries(p, field);
      forall i :: IsLast(s, HourStamp(d, hour), i) ==> r == s[i].value
    ensures var s := HourlySeries(p, field);
      (forall i :: 0 <= i < |s| ==> s[i].time != HourStamp(d, hour)) ==> r == None
  {
    var m := HourlyMap(HourlySeries(p, field));
    var needle := HourStamp(d, hour);
    if needle in m then m[needle] else None
  }

  /** The values of the present readings that `sel` picks, in series order. */
  function Keep(s: Series, sel: string -> bool): (r: seq<real>)
    ensures |r| <= |s|
    ensures forall v :: v in r <==> exists i :: 0 <= i < |s| && sel(s[i].time) && s[i].value == Some(v)
  {
    if s == [] then []
    else
      var prefix := s[..|s| - 1];
      var last := s[|s| - 1];
      assert forall i :: 0 <= i < |prefix| ==> prefix[i] == s[i];
      Keep(prefix, sel) + (if sel(last.time) && last.value.Some? then [last.value.value] else [])
  }

  /** One step of the selection: the last reading is appended when it is present and selected. */
  lemma KeepStep(s: Series, sel: string -> bool)
    requires s != []
    ensures var last := s[|s| - 1];
      Keep(s, sel) == Keep(s[..|s| - 1], sel) + (if sel(last.time) && last.value.Some? then [last.value.value] else [])
  {
  }

  /** Selection distributes over concatenation, so it keeps the series order. */
  lemma {:induction false} KeepAppend(a: Series, b: Series, sel: string -> bool)
    ensures Keep(a + b, sel) == Keep(a, sel) + Keep(b, sel)
    decreases |b|
  {
    if b == [] {
      assert a + b == a;
    } else {
      var b' := b[..|b| - 1];
      assert (a + b)[..|a + b| - 1] == a + b';
      KeepAppend(a, b', sel);
    }
  }

  /** A single reading is kept exactly when it is present and selected. */
  lemma KeepSingle(x: Reading, sel: string -> bool)
    ensures Keep([x], sel) == if sel(x.time) && x.value.Some? then [x.value.value] else []
  {
    assert [x][..0] == [];
  }

  /** The positions of the present readings that `sel` picks, in increasing order. */
  function Picked(s: Series, sel: string -> bool): (ps: seq<nat>)
    ensures forall j :: 0 <= j < |ps| ==> ps[j] < |s|
    ensures forall j, k :: 0 <= j < k < |ps| ==> ps[j] < ps[k]
    ensures forall i :: i in ps <==> 0 <= i < |s| && sel(s[i].time) && s[i].value.Some?
  {
    if s == [] then []
    else
      var n := |s| - 1;
      var front := Picked(s[..n], sel);
      assert forall i :: 0 <= i < n ==> s[..n][i] == s[i];
      front + (if sel(s[n].time) && s[n].value.Some? then [n] else [])
  }

  /** Appending one reading extends an enumeration of values by positions by at most that reading. */
  lemma EnumerationStep(s: Series, vals: seq<real>, pos: seq<nat>, picks: bool)
    requires s != [] && |vals| == |pos|
    requires forall j :: 0 <= j < |pos| ==> pos[j] < |s| - 1 && s[pos[j]].value == Some(vals[j])
    requires picks ==> s[|s| - 1].value.Some?
    ensures var n := |s| - 1;
      var vals', pos' := vals + (if picks then [s[n].value.value] else []), pos + (if picks then [n] else []);
      && |vals'| == |pos'|
      && forall j :: 0 <= j < |pos'| ==> s[pos'[j]].value == Some(vals'[j])
  {
  }

  /** The selection lists the picked readings' values, one per picked position, in series order. */
  lemma {:induction false} KeepEnumerates(s: Series, sel: string -> bool)
    ensures |Keep(s, sel)| == |Picked(s, sel)|
    ensures forall j :: 0 <= j < |Picked(s, sel)| ==> s[Picked(s, sel)[j]].value == Some(Keep(s, sel)[j])
  {
    if s != [] {
      var n := |s| - 1;
      var prefix := s[..n];
      KeepEnumerates(prefix, sel);
      KeepStep(s, sel);
      var picks := sel(s[n].time) && s[n].value.Some?;
      var ks, ps := Keep(prefix, sel), Picked(prefix, sel);
      assert Keep(s, sel) == ks + (if picks then [s[n].value.value] else []);
      assert Picked(s, sel) == ps + (if picks then [n] else []);
      forall j | 0 <= j < |ps|
        ensures ps[j] < n && s[ps[j]].value == Some(ks[j])
      {
        assert s[ps[j]] == prefix[ps[j]];
      }
      EnumerationStep(s, ks, ps, picks);
    }
  }

  /** Nothing is kept exactly when no present reading is selected. */
  lemma KeepEmptyIff(s: Series, sel: string -> bool)
    ensures Keep(s, sel) == [] <==> forall i :: 0 <= i < |s| && sel(s[i].time) ==> s[i].value.None?
  {
    if Keep(s, sel) != [] {
      var v := Keep(s, sel)[0];
      assert v in Keep(s, sel);
    }
  }

  /** `f"T{hour:02d}:00"` */
  function HourSuffix(hour: nat): string {
    "T" + ZeroPadded(hour, 2) + ":00"
  }

  /** The timestamp test of `_values_at_hour`: `t.endswith(f"T{hour:02d}:00")`. */
  function AtHour(hour: nat): string -> bool {
    t => EndsWith(t, HourSuffix(hour))
  }

  /** `_values_at_hour(payload, field, hour)`: the values of the present readings whose timestamp
      ends with `THH:00`, one per such reading and in series order. */
  function ValuesAtHour(p: Payload, field: string, hour: nat): (r: seq<real>)
    ensures var s, ps := HourlySeries(p, field), Picked(HourlySeries(p, field), AtHour(hour));
      && |r| == |ps|
      && forall j :: 0 <= j < |ps| ==> s[ps[j]].value == Some(r[j])
    ensures r == [] <==>
      forall i :: 0 <= i < |HourlySeries(p, field)| && EndsWith(HourlySeries(p, field)[i].time, HourSuffix(hour))
        ==> HourlySeries(p, field)[i].value.None?
  {
    var s := HourlySeries(p, field);
    KeepEmptyIff(s, AtHour(hour));
    KeepEnumerates(s, AtHour(hour));
    Keep(s, AtHour(hour))
  }
}
