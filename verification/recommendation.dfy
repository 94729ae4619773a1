/** The decision of the travel recommendation view
    (`recommendations/views/recommendation.py`): from the 2 PM temperature and
    PM2.5 at the current location and at the destination, recommend the trip only
    when the destination is strictly cooler AND strictly cleaner. The reason text is
    modelled by its structure: which clauses it contains and which qualifiers it uses. */
module Recommendation {

  import opened Wrappers
  import opened Rounding

  /** The qualifier words, weakest first. */
  datatype Magnitude = Slightly | Moderately | Significantly

  function Rank(m: Magnitude): nat {
    match m
    case Slightly => 0
    case Moderately => 1
    case Significantly => 2
  }

  function Abs(x: real): real {
    if x < 0.0 then -x else x
  }

  /** A magnitude band: at least `significant` is "significantly", at least `moderate` is "moderately". */
  function Qualify(delta: real, moderate: real, significant: real): (m: Magnitude)
    requires 0.0 < moderate < significant
    ensures m == Significantly <==> Abs(delta) >= significant
    ensures m == Moderately <==> moderate <= Abs(delta) < significant
    ensures m == Slightly <==> Abs(delta) < moderate
  {
    var d := Abs(delta);
    if d >= significant then Significantly
    else if d >= moderate then Moderately
    else Slightly
  }

  /** `_qual_temp`: bands at 2 and 5 degrees. */
  function QualTemp(delta: real): (m: Magnitude)
    ensures m == Significantly <==> Abs(delta) >= 5.0
    ensures m == Moderately <==> 2.0 <= Abs(delta) < 5.0
    ensures m == Slightly <==> Abs(delta) < 2.0
  {
    Qualify(delta, 2.0, 5.0)
  }

  /** `_qual_pm`: bands at 10 and 20 micrograms per cubic metre. */
  function QualPm(delta: real): (m: Magnitude)
    ensures m == Significantly <==> Abs(delta) >= 20.0
    ensures m == Moderately <==> 10.0 <= Abs(delta) < 20.0
    ensures m == Slightly <==> Abs(delta) < 10.0
  {
    Qualify(delta, 10.0, 20.0)
  }

  /** A qualifier depends only on the size of the difference, not on its direction. */
  lemma QualifySymmetric(delta: real, moderate: real, significant: real)
    requires 0.0 < moderate < significant
    ensures Qualify(-delta, moderate, significant) == Qualify(delta, moderate, significant)
  {
  }

  /** A larger difference never gets a weaker qualifier. */
  lemma QualifyMonotone(a: real, b: real, moderate: real, significant: real)
    requires 0.0 < moderate < significant
    requires Abs(a) <= Abs(b)
    ensures Rank(Qualify(a, moderate, significant)) <= Rank(Qualify(b, moderate, significant))
  {
  }

  /** Any difference the temperature bands call moderate or more, the PM2.5 bands call slight
      unless it is at least 10: the two scales are a factor of 2 to 4 apart. */
  lemma TemperatureBandsAreFiner(delta: real)
    ensures Rank(QualPm(delta)) <= Rank(QualTemp(delta))
  {
  }

  datatype Verdict = Recommended | NotRecommended

  /** The clauses of a "Not Recommended" reason, joined with " and " in this order. */
  datatype Clause = Hotter | SameTemperature | WorseAir | SameAir

  datatype Reason =
    | InsufficientData
      /** "Your destination is {degrees}°C {coolness} cooler and has {cleanliness} better air quality." */
    | CoolerAndCleaner(degrees: real, coolness: Magnitude, cleanliness: Magnitude)
      /** "Your destination is {parts joined by ' and '} than your current location." */
    | NotBetter(parts: seq<Clause>)
      /** "not better on temperature or air quality": the text for an empty clause list. */
    | NotBetterOnEither

  datatype Decision = Decision(verdict: Verdict, reason: Reason, tempDiff: Option<real>, pm25Diff: Option<real>)

  predicate Complete(curTemp: Option<real>, destTemp: Option<real>, curPm: Option<real>, destPm: Option<real>) {
    curTemp.Some? && destTemp.Some? && curPm.Some? && destPm.Some?
  }

  /** The decision body of `TravelRecommendationView.get`. */
  function Decide(curTemp: Option<real>, destTemp: Option<real>, curPm: Option<real>, destPm: Option<real>): (r: Decision)
    ensures r.verdict == Recommended <==>
              Complete(curTemp, destTemp, curPm, destPm) && destTemp.value < curTemp.value && destPm.value < curPm.value
    ensures r.reason == InsufficientData <==> !Complete(curTemp, destTemp, curPm, destPm)
    ensures !Complete(curTemp, destTemp, curPm, destPm) ==> r == Decision(NotRecommended, InsufficientData, None, None)
    ensures Complete(curTemp, destTemp, curPm, destPm) ==>
              && r.tempDiff.Some? && Abs(r.tempDiff.value - (destTemp.value - curTemp.value)) <= 0.05
              && r.pm25Diff.Some? && Abs(r.pm25Diff.value - (destPm.value - curPm.value)) <= 0.05
    ensures Complete(curTemp, destTemp, curPm, destPm) ==>
              && r.tempDiff == Some(Round1(destTemp.value - curTemp.value))
              && r.pm25Diff == Some(Round1(destPm.value - curPm.value))
    ensures r.reason.CoolerAndCleaner? <==> r.verdict == Recommended
    ensures r.reason != NotBetterOnEither
    ensures r.reason.CoolerAndCleaner? ==>
              && r.tempDiff.value <= 0.0 && r.pm25Diff.value <= 0.0
              && r.reason.degrees == Abs(r.tempDiff.value)
              && r.reason.coolness == QualTemp(r.tempDiff.value)
              && r.reason.cleanliness == QualPm(r.pm25Diff.value)
    ensures r.reason.NotBetter? ==>
              var dt, dp := destTemp.value - curTemp.value, destPm.value - curPm.value;
              && 1 <= |r.reason.parts| <= 2
              && |r.reason.parts| == (if dt >= 0.0 then 1 else 0) + (if dp >= 0.0 then 1 else 0)
              && (Hotter in r.reason.parts <==> dt > 0.05)
              && (SameTemperature in r.reason.parts <==> 0.0 <= dt <= 0.05)
              && (WorseAir in r.reason.parts <==> dp > 0.05)
              && (SameAir in r.reason.parts <==> 0.0 <= dp <= 0.05)
              && (dt >= 0.0 ==> r.reason.parts[0] in {Hotter, SameTemperature})
  {
    if !Complete(curTemp, destTemp, curPm, destPm) then
      Decision(NotRecommended, InsufficientData, None, None)
    else
      var dt, dp := destTemp.value - curTemp.value, destPm.value - curPm.value;
      var tempDiff, pm25Diff := Round1(dt), Round1(dp);
      var isDestCooler, hasBetterAir := destTemp.value < curTemp.value, destPm.value < curPm.value;
      if isDestCooler && hasBetterAir then
        Round1Sign(dt);
        Round1Sign(dp);
        Decision(Recommended, CoolerAndCleaner(Abs(tempDiff), QualTemp(tempDiff), QualPm(pm25Diff)), Some(tempDiff), Some(pm25Diff))
      else
        var tempPart := if isDestCooler then [] else [if tempDiff > 0.0 then Hotter else SameTemperature];
        var airPart := if hasBetterAir then [] else [if pm25Diff > 0.0 then WorseAir else SameAir];
        var parts := tempPart + airPart;
        Round1Positive(dt);
        Round1Positive(dp);
        var reason := if parts == [] then NotBetterOnEither else NotBetter(parts);
        Decision(NotRecommended, reason, Some(tempDiff), Some(pm25Diff))
  }

  /** At most one of two places can be recommended over the other. */
  lemma NeverRecommendedBothWays(a: Option<real>, b: Option<real>, c: Option<real>, d: Option<real>)
    ensures !(Decide(a, b, c, d).verdict == Recommended && Decide(b, a, d, c).verdict == Recommended)
  {
  }

  /** Staying put is never recommended, and the reason says "the same temperature and the same air quality". */
  lemma SamePlaceIsNotBetter(t: real, pm: real)
    ensures Decide(Some(t), Some(t), Some(pm), Some(pm)) ==
              Decision(NotRecommended, NotBetter([SameTemperature, SameAir]), Some(0.0), Some(0.0))
  {
    Round1Exact(0);
  }

  /** The verdict uses the exact values while the text uses the rounded difference: a destination
      0.01 degrees cooler is recommended as "0.0°C slightly cooler", and one 0.04 degrees hotter
      is described as "the same temperature". */
  lemma RoundedDifferenceInText()
    ensures Decide(Some(20.0), Some(19.99), Some(30.0), Some(5.0)) ==
              Decision(Recommended, CoolerAndCleaner(0.0, Slightly, Significantly), Some(0.0), Some(-25.0))
    ensures Decide(Some(20.0), Some(20.04), Some(30.0), Some(5.0)).reason == NotBetter([SameTemperature])
  {
    RoundHalfEvenNearest(-0.1, 0);
    RoundHalfEvenNearest(-250.0, -250);
    RoundHalfEvenNearest(0.4, 0);
  }
}
