/** The decision rules of js/sun-calculator.js: input validation, the sun
    phase of an instant, light quality, time consistency, tips and display
    names. The sun's position and the day's sun times come from a library
    and are inputs here. */
module SunCalculator {
  import opened Wrappers
  import opened Text
  import opened JsValues
  import opened LocalClock

  // ------------------------------------------------------------ validation

  /** A coordinate argument: `None` when its `typeof` is not 'number'. */
  type NumberArg = Option<Number>

  /** `latitude < -90 || latitude > 90` as JavaScript evaluates it. */
  predicate OutOfRange(x: Number, bound: real) {
    x.LessThan(-bound) || x.GreaterThan(bound)
  }

  /** `validateInputs`, as written. */
  function ValidateInputs(latitude: NumberArg, longitude: NumberArg, dateTime: JsDate): (ok: bool)
    ensures ok <==> && latitude.Some? && longitude.Some?
                    && (latitude.value.NaN? || (latitude.value.Finite? && -90.0 <= latitude.value.value <= 90.0))
                    && (longitude.value.NaN? || (longitude.value.Finite? && -180.0 <= longitude.value.value <= 180.0))
                    && dateTime.ValidDate?
  {
    if latitude.None? || longitude.None? then false
    else if OutOfRange(latitude.value, 90.0) then false
    else if OutOfRange(longitude.value, 180.0) then false
    else dateTime.ValidDate?
  }

  /** NaN is of type 'number' and fails both range comparisons, so a NaN
      coordinate passes validation. */
  lemma NaNCoordinatesAccepted(ms: int)
    ensures ValidateInputs(Some(NaN), Some(NaN), ValidDate(ms))
  {
  }

  /** Validation as intended: both coordinates are numbers inside their
      closed ranges and the instant is a valid Date. */
  function ValidateInputsStrict(latitude: NumberArg, longitude: NumberArg, dateTime: JsDate): (ok: bool)
    ensures ok <==> && latitude.Some? && latitude.value.Finite? && -90.0 <= latitude.value.value <= 90.0
                    && longitude.Some? && longitude.value.Finite? && -180.0 <= longitude.value.value <= 180.0
                    && dateTime.ValidDate?
  {
    && ValidateInputs(latitude, longitude, dateTime)
    && latitude.value != NaN && longitude.value != NaN
  }

  /** The two agree everywhere except on NaN coordinates. */
  lemma StrictDiffersOnlyOnNaN(latitude: NumberArg, longitude: NumberArg, dateTime: JsDate)
    requires latitude != Some(NaN) && longitude != Some(NaN)
    ensures ValidateInputsStrict(latitude, longitude, dateTime) == ValidateInputs(latitude, longitude, dateTime)
  {
  }

  // ------------------------------------------------------------------ phase

  datatype Phase = Night | Dawn | GoldenHourMorning | Morning | Afternoon | GoldenHourEvening | Sunset

  function PhaseName(p: Phase): string {
    match p
    case Night => "night"
    case Dawn => "dawn"
    case GoldenHourMorning => "golden-hour-morning"
    case Morning => "morning"
    case Afternoon => "afternoon"
    case GoldenHourEvening => "golden-hour-evening"
    case Sunset => "sunset"
  }

  /** The day's sun times; `None` is an invalid Date (as the library gives
      when the sun never reaches that altitude). */
  datatype SunTimes = SunTimes(
    dawn: Option<int>, sunrise: Option<int>, goldenHourEnd: Option<int>, solarNoon: Option<int>,
    goldenHour: Option<int>, sunset: Option<int>, dusk: Option<int>)

  /** `time < threshold.getTime()`; false against an invalid Date. */
  predicate Before(time: int, threshold: Option<int>) {
    threshold.Some? && time < threshold.value
  }

  /** `determineSunPhase`: the first threshold the time lies before decides. */
  function DetermineSunPhase(time: int, st: SunTimes): (p: Phase)
    ensures Before(time, st.dawn) ==> p == Night
    ensures (&& !Before(time, st.dawn) && !Before(time, st.sunrise) && !Before(time, st.goldenHourEnd)
             && !Before(time, st.solarNoon) && !Before(time, st.goldenHour) && !Before(time, st.sunset)
             && !Before(time, st.dusk)) ==> p == Night
    ensures p == Dawn <==> !Before(time, st.dawn) && Before(time, st.sunrise)
    ensures p == GoldenHourMorning <==>
              !Before(time, st.dawn) && !Before(time, st.sunrise) && Before(time, st.goldenHourEnd)
    ensures p == Morning <==>
              && !Before(time, st.dawn) && !Before(time, st.sunrise) && !Before(time, st.goldenHourEnd)
              && Before(time, st.solarNoon)
    ensures p == Afternoon <==>
              && !Before(time, st.dawn) && !Before(time, st.sunrise) && !Before(time, st.goldenHourEnd)
              && !Before(time, st.solarNoon) && Before(time, st.goldenHour)
    ensures p == GoldenHourEvening <==>
              && !Before(time, st.dawn) && !Before(time, st.sunrise) && !Before(time, st.goldenHourEnd)
              && !Before(time, st.solarNoon) && !Before(time, st.goldenHour) && Before(time, st.sunset)
    ensures p == Sunset <==>
              && !Before(time, st.dawn) && !Before(time, st.sunrise) && !Before(time, st.goldenHourEnd)
              && !Before(time, st.solarNoon) && !Before(time, st.goldenHour) && !Before(time, st.sunset)
              && Before(time, st.dusk)
  {
    if Before(time, st.dawn) then Night
    else if Before(time, st.sunrise) then Dawn
    else if Before(time, st.goldenHourEnd) then GoldenHourMorning
    else if Before(time, st.solarNoon) then Morning
    else if Before(time, st.goldenHour) then Afternoon
    else if Before(time, st.sunset) then GoldenHourEvening
    else if Before(time, st.dusk) then Sunset
    else Night
  }

  /** All seven times exist and are in their natural order. */
  predicate Ordered(st: SunTimes) {
    && st.dawn.Some? && st.sunrise.Some? && st.goldenHourEnd.Some? && st.solarNoon.Some?
    && st.goldenHour.Some? && st.sunset.Some? && st.dusk.Some?
    && st.dawn.value <= st.sunrise.value <= st.goldenHourEnd.value <= st.solarNoon.value
    && st.solarNoon.value <= st.goldenHour.value <= st.sunset.value <= st.dusk.value
  }

  /** On an ordinary day each phase is exactly the half-open interval
      between its two thresholds, and night is before dawn or from dusk. */
  lemma PhaseIntervals(time: int, st: SunTimes)
    requires Ordered(st)
    ensures DetermineSunPhase(time, st) == Night <==> time < st.dawn.value || st.dusk.value <= time
    ensures DetermineSunPhase(time, st) == Dawn <==> st.dawn.value <= time < st.sunrise.value
    ensures DetermineSunPhase(time, st) == GoldenHourMorning <==> st.sunrise.value <= time < st.goldenHourEnd.value
    ensures DetermineSunPhase(time, st) == Morning <==> st.goldenHourEnd.value <= time < st.solarNoon.value
    ensures DetermineSunPhase(time, st) == Afternoon <==> st.solarNoon.value <= time < st.goldenHour.value
    ensures DetermineSunPhase(time, st) == GoldenHourEvening <==> st.goldenHour.value <= time < st.sunset.value
    ensures DetermineSunPhase(time, st) == Sunset <==> st.sunset.value <= time < st.dusk.value
  {
  }

  /** A day on which the library yields no valid times is all night. */
  lemma NoSunTimesIsNight(time: int)
    ensures DetermineSunPhase(time, SunTimes(None, None, None, None, None, None, None)) == Night
  {
  }

  // ---------------------------------------------------------- light quality

  datatype LightQuality = NoLight | Dim | Golden | Soft | Normal | Harsh

  function LightQualityName(q: LightQuality): string {
    match q
    case NoLight => "none"
    case Dim => "dim"
    case Golden => "golden"
    case Soft => "soft"
    case Normal => "normal"
    case Harsh => "harsh"
  }

  /** `determineLightQuality`. */
  function DetermineLightQuality(elevation: real, phase: string): (q: LightQuality)
    ensures q == NoLight <==> elevation < 0.0
    ensures q == Dim <==> 0.0 <= elevation < 6.0
    ensures q == Golden <==> elevation >= 6.0 && Contains(phase, "golden-hour")
    ensures q in {Soft, Normal, Harsh} ==> !Contains(phase, "golden-hour")
    ensures elevation >= 6.0 && !Contains(phase, "golden-hour") ==>
              && (q == Soft <==> elevation < 30.0)
              && (q == Normal <==> 30.0 <= elevation < 60.0)
              && (q == Harsh <==> elevation >= 60.0)
  {
    if elevation < 0.0 then NoLight
    else if elevation < 6.0 then Dim
    else if Contains(phase, "golden-hour") then Golden
    else if elevation < 30.0 then Soft
    else if elevation < 60.0 then Normal
    else Harsh
  }

  /** Brightness order of the non-golden qualities. */
  function Brightness(q: LightQuality): nat {
    match q
    case NoLight => 0
    case Dim => 1
    case Golden => 2
    case Soft => 2
    case Normal => 3
    case Harsh => 4
  }

  /** Outside golden hour, a higher sun never gives a dimmer quality. */
  lemma LightQualityMonotone(e1: real, e2: real, phase: string)
    requires e1 <= e2 && !Contains(phase, "golden-hour")
    ensures Brightness(DetermineLightQuality(e1, phase)) <= Brightness(DetermineLightQuality(e2, phase))
  {
  }

  /** Both golden-hour phase names select golden light once the sun is 6
      degrees up; no other phase name does. */
  lemma GoldenPhasesGiveGoldenLight(p: Phase, elevation: real)
    requires elevation >= 6.0
    ensures DetermineLightQuality(elevation, PhaseName(p)) == Golden <==> p == GoldenHourMorning || p == GoldenHourEvening
  {
    match p
    case GoldenHourMorning =>
      ContainsPrefixSuffix([], "golden-hour", "-morning");
      assert [] + "golden-hour" + "-morning" == PhaseName(p);
    case GoldenHourEvening =>
      ContainsPrefixSuffix([], "golden-hour", "-evening");
      assert [] + "golden-hour" + "-evening" == PhaseName(p);
    case _ =>
  }

  // ------------------------------------------------------- time consistency

  datatype TimeCheck = TimeCheck(consistent: bool, warnings: seq<string>)

  /** `checkTimeConsistency`; the hour is the instant's local hour. */
  function CheckTimeConsistency(dateTime: int, cal: Calendar, phase: string): (c: TimeCheck)
    ensures c.consistent <==> |c.warnings| == 0
    ensures |c.warnings| <= 1
    ensures phase == "night" ==> (c.consistent <==> !(6 <= cal.fieldsOf(dateTime).hours <= 18))
    ensures phase in {"morning", "afternoon"} ==>
              (c.consistent <==> 6 <= cal.fieldsOf(dateTime).hours <= 18)
    ensures phase !in {"night", "morning", "afternoon"} ==> c == TimeCheck(true, [])
  {
    var hour := cal.fieldsOf(dateTime).hours;
    var nightWarning := if phase == "night" && 6 <= hour <= 18 then ["夜間フェーズですが、昼間の時刻です"] else [];
    var dayWarning := if (phase == "morning" || phase == "afternoon") && (hour < 6 || hour > 18)
      then ["昼間フェーズですが、夜間の時刻です"] else [];
    var warnings := nightWarning + dayWarning;
    TimeCheck(|warnings| == 0, warnings)
  }

  // ------------------------------------------------------------------- tips

  /** `getPhotographyTips`. */
  function GetPhotographyTips(elevation: real, phase: string): (tips: seq<string>)
    ensures phase in {"golden-hour-morning", "golden-hour-evening"} ==> |tips| == 2
    ensures phase in {"dawn", "sunset", "night"} ==> |tips| == 1
    ensures phase in {"morning", "afternoon"} ==> |tips| == (if elevation > 60.0 then 2 else 1)
    ensures |tips| == 0 <==> phase !in {"golden-hour-morning", "golden-hour-evening", "dawn", "sunset", "morning", "afternoon", "night"}
  {
    if phase == "golden-hour-morning" || phase == "golden-hour-evening" then
      ["ゴールデンアワー: 暖色系の美しい光", "ポートレートや風景撮影に最適"]
    else if phase == "dawn" || phase == "sunset" then
      ["マジックアワー: ドラマチックな空の色"]
    else if phase == "morning" || phase == "afternoon" then
      if elevation > 60.0 then ["太陽が高く、影が短い", "コントラストに注意"] else ["適度な光量と影"]
    else if phase == "night" then
      ["夜間: フラッシュまたは人工光源が必要"]
    else []
  }

  /** Every phase the classifier can produce gets at least one tip. */
  lemma EveryPhaseHasTips(p: Phase, elevation: real)
    ensures 1 <= |GetPhotographyTips(elevation, PhaseName(p))| <= 2
  {
  }

  // ---------------------------------------------------------- display names

  function DisplayName(p: Phase): string {
    match p
    case Night => "夜間"
    case Dawn => "明け方"
    case GoldenHourMorning => "朝のゴールデンアワー"
    case Morning => "午前"
    case Afternoon => "午後"
    case GoldenHourEvening => "夕方のゴールデンアワー"
    case Sunset => "夕暮れ"
  }

  /** The label whose name is `s`, if any. */
  function PhaseOfName(s: string): (r: Option<Phase>)
    ensures r.Some? ==> PhaseName(r.value) == s
    ensures r.None? ==> forall p: Phase :: PhaseName(p) != s
  {
    if s == "night" then Some(Night)
    else if s == "dawn" then Some(Dawn)
    else if s == "golden-hour-morning" then Some(GoldenHourMorning)
    else if s == "morning" then Some(Morning)
    else if s == "afternoon" then Some(Afternoon)
    else if s == "golden-hour-evening" then Some(GoldenHourEvening)
    else if s == "sunset" then Some(Sunset)
    else None
  }

  /** `getPhaseDisplayName`: a label's display name, or the argument
      itself. */
  function GetPhaseDisplayName(phase: string): (r: string)
    ensures (forall p: Phase :: PhaseName(p) != phase) ==> r == phase
  {
    match PhaseOfName(phase)
    case Some(p) => DisplayName(p)
    case None => phase
  }

  /** Distinct labels get distinct display names, and no display name is
      itself a label, so a display name can be mapped back to its label. */
  lemma DisplayNamesDistinct(p: Phase, q: Phase)
    ensures GetPhaseDisplayName(PhaseName(p)) == DisplayName(p)
    ensures DisplayName(p) == DisplayName(q) ==> p == q
    ensures PhaseOfName(DisplayName(p)).None?
  {
    assert PhaseOfName(PhaseName(p)) == Some(p);
  }
}
