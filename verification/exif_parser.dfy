/** The pure parts of js/exif-parser.js: string sanitising, camera names,
    the privacy-risk summary, GPS conversions and date-field precedence. */
module ExifParser {
  import opened Wrappers
  import opened Text
  import opened JsValues
  import GeoUtils

  // ------------------------------------------------------------ sanitising

  /** U+0000–U+001F and U+007F–U+009F. */
  predicate IsControl(c: char) {
    c <= '\U{1F}' || ('\U{7F}' <= c <= '\U{9F}')
  }

  /** Printable ASCII, hiragana, katakana and the CJK unified ideographs
      up to U+9FAF. */
  predicate IsAllowed(c: char) {
    || (' ' <= c <= '~')
    || ('\U{3040}' <= c <= '\U{309F}')
    || ('\U{30A0}' <= c <= '\U{30FF}')
    || ('\U{4E00}' <= c <= '\U{9FAF}')
  }

  /** The characters JavaScript's `\s` and `trim` treat as white space. */
  predicate IsJsSpace(c: char) {
    || c == '\t' || c == '\n' || c == '\U{B}' || c == '\U{C}' || c == '\r' || c == ' '
    || c == '\U{A0}' || c == '\U{1680}' || ('\U{2000}' <= c <= '\U{200A}')
    || c == '\U{2028}' || c == '\U{2029}' || c == '\U{202F}' || c == '\U{205F}'
    || c == '\U{3000}' || c == '\U{FEFF}'
  }

  /** `str.replace(/[\x00-\x1F\x7F-\x9F]/g, '')`. */
  function StripControl(s: string): (r: string)
    ensures |r| <= |s|
    ensures forall i :: 0 <= i < |r| ==> !IsControl(r[i]) && r[i] in s
    ensures forall i :: 0 <= i < |s| && !IsControl(s[i]) ==> s[i] in r
    ensures (forall i :: 0 <= i < |s| ==> !IsControl(s[i])) ==> r == s
  {
    if |s| == 0 then []
    else
      var rest := StripControl(s[1..]);
      assert forall i :: 1 <= i < |s| ==> s[i] == s[1..][i - 1];
      if IsControl(s[0]) then rest else [s[0]] + rest
  }

  /** How many characters `str.match(nonAsciiPattern)` finds. */
  function CountDisallowed(s: string): (n: nat)
    ensures n <= |s|
    ensures n == 0 <==> forall i :: 0 <= i < |s| ==> IsAllowed(s[i])
  {
    if |s| == 0 then 0
    else
      var rest := CountDisallowed(s[1..]);
      assert forall i :: 1 <= i < |s| ==> s[i] == s[1..][i - 1];
      (if IsAllowed(s[0]) then 0 else 1) + rest
  }

  /** The second `replace`: keeps allowed characters and white space. */
  function KeepAllowedOrSpace(s: string): (r: string)
    ensures |r| <= |s|
    ensures forall i :: 0 <= i < |r| ==> (IsAllowed(r[i]) || IsJsSpace(r[i])) && r[i] in s
    ensures forall i :: 0 <= i < |s| && (IsAllowed(s[i]) || IsJsSpace(s[i])) ==> s[i] in r
    ensures (forall i :: 0 <= i < |s| ==> IsAllowed(s[i])) ==> r == s
  {
    if |s| == 0 then []
    else
      var rest := KeepAllowedOrSpace(s[1..]);
      assert forall i :: 1 <= i < |s| ==> s[i] == s[1..][i - 1];
      if IsAllowed(s[0]) || IsJsSpace(s[0]) then [s[0]] + rest else rest
  }

  function TrimStart(s: string): (r: string)
    ensures |r| <= |s| && r == s[|s| - |r|..]
    ensures forall i :: 0 <= i < |s| - |r| ==> IsJsSpace(s[i])
    ensures |r| > 0 ==> !IsJsSpace(r[0])
  {
    if |s| == 0 || !IsJsSpace(s[0]) then s else TrimStart(s[1..])
  }

  function TrimEnd(s: string): (r: string)
    ensures |r| <= |s| && r == s[..|r|]
    ensures forall i :: |r| <= i < |s| ==> IsJsSpace(s[i])
    ensures |r| > 0 ==> !IsJsSpace(r[|r| - 1])
  {
    if |s| == 0 || !IsJsSpace(s[|s| - 1]) then s else TrimEnd(s[..|s| - 1])
  }

  /** `str.trim()`: the slice of `s` between its leading and trailing white
      space. */
  function Trim(s: string): (r: string)
    ensures exists i, j :: 0 <= i <= j <= |s| && r == s[i..j]
    ensures forall k :: 0 <= k < |r| ==> r[k] in s
    ensures |r| > 0 ==> !IsJsSpace(r[0]) && !IsJsSpace(r[|r| - 1])
    ensures (|s| == 0 || (!IsJsSpace(s[0]) && !IsJsSpace(s[|s| - 1]))) ==> r == s
  {
    var t := TrimStart(s);
    var r := TrimEnd(t);
    assert r == s[|s| - |t|..|s| - |t| + |r|];
    assert |r| > 0 ==> r[0] == t[0];
    r
  }

  /** Trimming removes white space only. */
  lemma TrimKeepsNonSpace(s: string, k: nat)
    requires k < |s| && !IsJsSpace(s[k])
    ensures s[k] in Trim(s)
  {
    var t := TrimStart(s);
    var r := TrimEnd(t);
    var m := k - (|s| - |t|);
    assert t[m] == s[k];
    assert r[m] == t[m];
  }

  /** What a successful sanitising leaves: non-empty text of allowed
      characters and inner white space, with no control characters. */
  predicate Sanitized(t: string) {
    && |t| > 0
    && (forall i :: 0 <= i < |t| ==> !IsControl(t[i]))
    && (forall i :: 0 <= i < |t| ==> IsAllowed(t[i]) || IsJsSpace(t[i]))
    && !IsJsSpace(t[0]) && !IsJsSpace(t[|t| - 1])
  }

  lemma CleanedIsSanitized(a: string)
    requires forall i :: 0 <= i < |a| ==> !IsControl(a[i])
    ensures |Trim(KeepAllowedOrSpace(a))| > 0 ==> Sanitized(Trim(KeepAllowedOrSpace(a)))
  {
    var b := KeepAllowedOrSpace(a);
    var t := Trim(b);
    assert forall i :: 0 <= i < |b| ==> b[i] in a;
  }

  /** `sanitizeString` on a string argument (`None` for a falsy one). */
  function SanitizeString(str: Option<string>): (r: Option<string>)
    ensures (str.None? || str == Some("")) ==> r.None?
    ensures r.Some? ==> Sanitized(r.value)
    ensures r.Some? ==> forall k :: 0 <= k < |r.value| ==> r.value[k] in str.value
    ensures str.Some? && 2 * CountDisallowed(StripControl(str.value)) > |StripControl(str.value)| ==> r.None?
    ensures str.Some? && 2 * CountDisallowed(StripControl(str.value)) <= |StripControl(str.value)| ==>
              forall i :: 0 <= i < |str.value| && IsAllowed(str.value[i]) && !IsJsSpace(str.value[i]) ==>
                r.Some? && str.value[i] in r.value
  {
    if str.None? || str.value == "" then None
    else
      var a := StripControl(str.value);
      if 2 * CountDisallowed(a) > |a| then None
      else
        var t := Trim(KeepAllowedOrSpace(a));
        CleanedIsSanitized(a);
        if |t| > 0 then Some(t) else None
  }

  /** A clean string (allowed characters only, not starting or ending with
      a space) comes back unchanged. */
  lemma SanitizeKeepsCleanText(s: string)
    requires |s| > 0 && forall i :: 0 <= i < |s| ==> IsAllowed(s[i])
    requires !IsJsSpace(s[0]) && !IsJsSpace(s[|s| - 1])
    ensures SanitizeString(Some(s)) == Some(s)
  {
    assert forall i :: 0 <= i < |s| ==> !IsControl(s[i]);
  }

  /** Sanitising a result made only of allowed characters changes nothing. */
  lemma SanitizeIdempotentOnAllowed(str: Option<string>)
    requires SanitizeString(str).Some?
    requires forall i :: 0 <= i < |SanitizeString(str).value| ==> IsAllowed(SanitizeString(str).value[i])
    ensures SanitizeString(SanitizeString(str)) == SanitizeString(str)
  {
    SanitizeKeepsCleanText(SanitizeString(str).value);
  }

  /** Text that is mostly outside the allowed ranges is treated as garbled. */
  lemma GarbledTextRejected()
    ensures SanitizeString(Some("\U{C3}\U{A9}\U{C3}")) == None
  {
    var s := "\U{C3}\U{A9}\U{C3}";
    assert StripControl(s) == s;
    assert CountDisallowed(s) == 3;
  }

  // ------------------------------------------------------------ camera name

  /** The decision `formatCameraName` makes on the sanitised parts. */
  function CombineCameraName(make: Option<string>, model: Option<string>): (r: string)
    ensures make.None? && model.None? ==> r == "不明"
    ensures model.Some? ==> Contains(r, model.value)
    ensures make.Some? ==> Contains(ToLower(r), ToLower(make.value))
    ensures make.Some? && model.Some? ==> |model.value| <= |r| <= |make.value| + 1 + |model.value|
    ensures make.None? && model.Some? ==> r == model.value
    ensures make.Some? && model.None? ==> r == make.value
    ensures make.Some? && model.Some? ==>
              (r == model.value <==> Contains(ToLower(model.value), ToLower(make.value)))
    ensures make.Some? && model.Some? && !Contains(ToLower(model.value), ToLower(make.value)) ==>
              r == make.value + " " + model.value
  {
    if make.None? && model.None? then "不明"
    else if make.None? then
      ContainsSelf(model.value);
      model.value
    else if model.None? then
      ContainsSelf(ToLower(make.value));
      make.value
    else if Contains(ToLower(model.value), ToLower(make.value)) then
      ContainsSelf(model.value);
      model.value
    else
      JoinedContainsBoth(make.value, model.value);
      make.value + " " + model.value
  }

  lemma JoinedContainsBoth(m: string, d: string)
    ensures Contains(m + " " + d, d)
    ensures Contains(ToLower(m + " " + d), ToLower(m))
  {
    var j := m + " " + d;
    assert j[|m| + 1..] == d;
    assert OccursAt(j, d, |m| + 1);
    var lj := ToLower(j);
    assert forall i :: 0 <= i < |m| ==> lj[i] == LowerChar(m[i]);
    assert lj[..|m|] == ToLower(m);
    assert OccursAt(lj, ToLower(m), 0);
  }

  /** `formatCameraName`. */
  function FormatCameraName(make: Option<string>, model: Option<string>): string {
    CombineCameraName(SanitizeString(make), SanitizeString(model))
  }

  /** A model name that already names the maker is used alone; otherwise
      the maker is put in front. */
  lemma CameraNameDedup(make: string, model: string)
    requires Sanitized(make) && Sanitized(model)
    requires forall i :: 0 <= i < |make| ==> IsAllowed(make[i])
    requires forall i :: 0 <= i < |model| ==> IsAllowed(model[i])
    ensures Contains(ToLower(model), ToLower(make)) ==> FormatCameraName(Some(make), Some(model)) == model
    ensures !Contains(ToLower(model), ToLower(make)) ==> FormatCameraName(Some(make), Some(model)) == make + " " + model
  {
    SanitizeKeepsCleanText(make);
    SanitizeKeepsCleanText(model);
  }

  // ------------------------------------------------------ security summary

  datatype Risk = Low | Medium | High

  /** Which of the inspected fields are truthy. */
  datatype PrivacyFields = PrivacyFields(
    gpsLatitude: bool, gpsLongitude: bool, bodySerialNumber: bool, lensSerialNumber: bool,
    dateTime: bool, dateTimeOriginal: bool, artist: bool, copyright: bool, userComment: bool)

  datatype SecurityAnalysis = SecurityAnalysis(
    privacyRisk: Risk, hasGPS: bool, hasPersonalInfo: bool, hasCameraSerial: bool,
    hasTimestamp: bool, warnings: seq<string>, recommendations: seq<string>)

  predicate GpsCheck(f: PrivacyFields) { f.gpsLatitude && f.gpsLongitude }
  predicate SerialCheck(f: PrivacyFields) { f.bodySerialNumber || f.lensSerialNumber }
  predicate TimestampCheck(f: PrivacyFields) { f.dateTime || f.dateTimeOriginal }
  predicate PersonalCheck(f: PrivacyFields) { f.artist || f.copyright || f.userComment }

  function Flag(b: bool): nat { if b then 1 else 0 }

  /** The four checks of `performSecurityAnalysis`, run in order, each
      adding its warning and possibly raising the risk. The personal-info
      check sets the risk to medium outright when `personalKeepsHigh` is
      false (as written) and only raises it when true (as intended). */
  function SecuritySteps(f: PrivacyFields, personalKeepsHigh: bool): SecurityAnalysis {
    var a0 := SecurityAnalysis(Low, false, false, false, false, [], []);
    var a1 := if GpsCheck(f) then
        a0.(hasGPS := true, privacyRisk := High,
            warnings := a0.warnings + ["GPS位置情報が含まれています"],
            recommendations := a0.recommendations + ["公開前にGPS情報を削除することを推奨"])
      else a0;
    var a2 := if SerialCheck(f) then
        a1.(hasCameraSerial := true, privacyRisk := if a1.privacyRisk == High then High else Medium,
            warnings := a1.warnings + ["カメラ/レンズのシリアル番号が含まれています"],
            recommendations := a1.recommendations + ["デバイス特定を避けるためシリアル番号の削除を推奨"])
      else a1;
    var a3 := if TimestampCheck(f) then
        a2.(hasTimestamp := true, warnings := a2.warnings + ["詳細な撮影時刻が記録されています"])
      else a2;
    if PersonalCheck(f) then
      a3.(hasPersonalInfo := true,
          privacyRisk := if personalKeepsHigh && a3.privacyRisk == High then High else Medium,
          warnings := a3.warnings + ["作者情報またはコメントが含まれています"])
    else a3
  }

  /** `performSecurityAnalysis` as written: author or comment fields turn a
      high (GPS) risk back into medium. */
  function PerformSecurityAnalysis(f: PrivacyFields): (a: SecurityAnalysis)
    ensures a.privacyRisk == Low <==> !GpsCheck(f) && !SerialCheck(f) && !PersonalCheck(f)
    ensures a.privacyRisk == High <==> GpsCheck(f) && !PersonalCheck(f)
    ensures a.privacyRisk == Medium <==> PersonalCheck(f) || (SerialCheck(f) && !GpsCheck(f))
    ensures a.hasGPS == GpsCheck(f) && a.hasCameraSerial == SerialCheck(f)
    ensures a.hasTimestamp == TimestampCheck(f) && a.hasPersonalInfo == PersonalCheck(f)
    ensures |a.warnings| == Flag(GpsCheck(f)) + Flag(SerialCheck(f)) + Flag(TimestampCheck(f)) + Flag(PersonalCheck(f))
    ensures |a.recommendations| == Flag(GpsCheck(f)) + Flag(SerialCheck(f)) <= 2
  {
    SecuritySteps(f, false)
  }

  function RiskLevel(r: Risk): nat {
    match r
    case Low => 0
    case Medium => 1
    case High => 2
  }

  /** Every field truthy in `f` is truthy in `g`. */
  predicate Covers(g: PrivacyFields, f: PrivacyFields) {
    && (f.gpsLatitude ==> g.gpsLatitude) && (f.gpsLongitude ==> g.gpsLongitude)
    && (f.bodySerialNumber ==> g.bodySerialNumber) && (f.lensSerialNumber ==> g.lensSerialNumber)
    && (f.dateTime ==> g.dateTime) && (f.dateTimeOriginal ==> g.dateTimeOriginal)
    && (f.artist ==> g.artist) && (f.copyright ==> g.copyright) && (f.userComment ==> g.userComment)
  }

  const GpsOnly := PrivacyFields(true, true, false, false, false, false, false, false, false)
  const GpsAndArtist := PrivacyFields(true, true, false, false, false, false, true, false, false)

  /** As written, adding an Artist tag to a photo with GPS lowers its
      reported risk from high to medium. */
  lemma PersonalInfoLowersGpsRisk()
    ensures Covers(GpsAndArtist, GpsOnly)
    ensures PerformSecurityAnalysis(GpsOnly).privacyRisk == High
    ensures PerformSecurityAnalysis(GpsAndArtist).privacyRisk == Medium
  {
  }

  /** The analysis with the personal-info check only ever raising the risk,
      as the serial-number check already does. */
  function PerformSecurityAnalysisCorrected(f: PrivacyFields): (a: SecurityAnalysis)
    ensures a.privacyRisk == High <==> GpsCheck(f)
    ensures a.privacyRisk == Medium <==> !GpsCheck(f) && (SerialCheck(f) || PersonalCheck(f))
    ensures a.privacyRisk == Low <==> !GpsCheck(f) && !SerialCheck(f) && !PersonalCheck(f)
    ensures a.hasGPS == GpsCheck(f) && a.hasCameraSerial == SerialCheck(f)
    ensures a.hasTimestamp == TimestampCheck(f) && a.hasPersonalInfo == PersonalCheck(f)
    ensures |a.warnings| == Flag(GpsCheck(f)) + Flag(SerialCheck(f)) + Flag(TimestampCheck(f)) + Flag(PersonalCheck(f))
    ensures |a.recommendations| == Flag(GpsCheck(f)) + Flag(SerialCheck(f)) <= 2
  {
    SecuritySteps(f, true)
  }

  /** With the correction, more privacy-relevant fields never mean a lower
      risk. */
  lemma CorrectedRiskMonotone(f: PrivacyFields, g: PrivacyFields)
    requires Covers(g, f)
    ensures RiskLevel(PerformSecurityAnalysisCorrected(f).privacyRisk) <= RiskLevel(PerformSecurityAnalysisCorrected(g).privacyRisk)
  {
  }

  // ----------------------------------------------------------------- GPS

  /** The `altitude` argument: absent, a plain number, or a rational
      object. */
  datatype AltitudeValue = Null | Undefined | Plain(n: Number) | Rational(numerator: real, denominator: real)

  /** The `ref` argument: the number it is, or some non-number. */
  datatype RefValue = NumberRef(x: real) | OtherRef

  /** `convertGPSAltitude`. */
  function ConvertGPSAltitude(altitude: AltitudeValue, ref: RefValue): (r: Option<Number>)
    ensures r.None? <==> altitude.Null? || altitude.Undefined?
    ensures altitude.Plain? && ref != NumberRef(1.0) ==> r == Some(altitude.n)
    ensures altitude.Plain? && ref == NumberRef(1.0) ==> r == Some(altitude.n.Negate())
    ensures altitude.Rational? && altitude.denominator != 0.0 ==>
              r == Some(Finite(if ref == NumberRef(1.0) then -(altitude.numerator / altitude.denominator)
                               else altitude.numerator / altitude.denominator))
  {
    match altitude
    case Null => None
    case Undefined => None
    case Plain(n) => Some(if ref == NumberRef(1.0) then n.Negate() else n)
    case Rational(num, den) =>
      var v := Divide(num, den);
      Some(if ref == NumberRef(1.0) then v.Negate() else v)
  }

  /** The reference only ever flips the sign. */
  lemma AltitudeRefFlipsSign(altitude: AltitudeValue)
    requires !altitude.Null? && !altitude.Undefined?
    ensures ConvertGPSAltitude(altitude, NumberRef(1.0)).value == ConvertGPSAltitude(altitude, NumberRef(0.0)).value.Negate()
    ensures ConvertGPSAltitude(altitude, OtherRef) == ConvertGPSAltitude(altitude, NumberRef(0.0))
  {
  }

  /** `convertGPSCoordinate`: only a three-element array is converted. */
  function ConvertGPSCoordinate(coordinate: Option<seq<real>>, ref: string): (r: Option<real>)
    ensures r.Some? <==> coordinate.Some? && |coordinate.value| == 3
    ensures r.Some? ==> r.value == GeoUtils.DmsToDecimal(coordinate.value[0], coordinate.value[1], coordinate.value[2], ref)
  {
    if coordinate.None? || |coordinate.value| != 3 then None
    else
      var c := coordinate.value;
      Some(GeoUtils.DmsToDecimal(c[0], c[1], c[2], ref))
  }

  /** A southern coordinate is the northern one negated. */
  lemma SouthIsNegatedNorth(c: seq<real>)
    requires |c| == 3
    ensures ConvertGPSCoordinate(Some(c), "S").value == -ConvertGPSCoordinate(Some(c), "N").value
  {
    GeoUtils.DirectionOnlySetsSign(c[0], c[1], c[2], "S");
  }

  // --------------------------------------------------------- date fields

  /** The tag values `extractDateTimeInfo` reads; `None` stands for an
      absent or falsy value. */
  datatype DateTags = DateTags(
    dateTime: Option<string>, dateTimeOriginal: Option<string>, dateTimeDigitized: Option<string>,
    createDate: Option<string>, modifyDate: Option<string>,
    offsetTime: Option<string>, offsetTimeOriginal: Option<string>)

  datatype DateField = DateTime | DateTimeOriginal | DateTimeDigitized | CreateDate | ModifyDate

  const FieldOrder: seq<DateField> := [DateTime, DateTimeOriginal, DateTimeDigitized, CreateDate, ModifyDate]

  datatype DateTimeInfo = DateTimeInfo(
    original: Option<int>, digitized: Option<int>, modified: Option<int>, created: Option<int>,
    timezone: Option<string>)

  function TagOf(tags: DateTags, f: DateField): Option<string> {
    match f
    case DateTime => tags.dateTime
    case DateTimeOriginal => tags.dateTimeOriginal
    case DateTimeDigitized => tags.dateTimeDigitized
    case CreateDate => tags.createDate
    case ModifyDate => tags.modifyDate
  }

  /** A tag's parsed instant: `None` when it is absent or does not parse.
      `parse` stands for `parseExifDateTime`. */
  function Parsed(tags: DateTags, f: DateField, parse: string -> Option<int>): Option<int> {
    match TagOf(tags, f)
    case None => None
    case Some(s) => parse(s)
  }

  /** One iteration of the `forEach` over the date fields. */
  function Apply(info: DateTimeInfo, f: DateField, d: Option<int>): DateTimeInfo {
    match d
    case None => info
    case Some(_) =>
      match f
      case DateTime => info.(modified := d)
      case ModifyDate => info.(modified := d)
      case DateTimeOriginal => info.(original := d)
      case DateTimeDigitized => info.(digitized := d)
      case CreateDate => info.(created := d)
  }

  function ApplyAll(info: DateTimeInfo, fs: seq<DateField>, tags: DateTags, parse: string -> Option<int>): DateTimeInfo
    decreases |fs|
  {
    if |fs| == 0 then info
    else ApplyAll(Apply(info, fs[0], Parsed(tags, fs[0], parse)), fs[1..], tags, parse)
  }

  /** `exifData.OffsetTime || exifData.OffsetTimeOriginal`, keeping null
      when neither is truthy. */
  function Timezone(tags: DateTags): Option<string> {
    if tags.offsetTime.Some? then tags.offsetTime else tags.offsetTimeOriginal
  }

  /** `extractDateTimeInfo` without the display strings. */
  function ExtractDateTimeInfo(tags: DateTags, parse: string -> Option<int>): DateTimeInfo {
    var start := DateTimeInfo(None, None, None, None, None);
    ApplyAll(start, FieldOrder, tags, parse).(timezone := Timezone(tags))
  }

  /** The first present value of two. */
  function Or(a: Option<int>, b: Option<int>): Option<int> {
    if a.Some? then a else b
  }

  /** Field precedence in closed form: ModifyDate overrides DateTime as the
      modification time, every other slot comes from its own tag, and a tag
      that does not parse leaves its slot empty. */
  lemma ExtractDateTimePrecedence(tags: DateTags, parse: string -> Option<int>)
    ensures ExtractDateTimeInfo(tags, parse) == DateTimeInfo(
      Parsed(tags, DateTimeOriginal, parse),
      Parsed(tags, DateTimeDigitized, parse),
      Or(Parsed(tags, ModifyDate, parse), Parsed(tags, DateTime, parse)),
      Parsed(tags, CreateDate, parse),
      Timezone(tags))
  {
    var i0 := DateTimeInfo(None, None, None, None, None);
    var i1 := Apply(i0, DateTime, Parsed(tags, DateTime, parse));
    var i2 := Apply(i1, DateTimeOriginal, Parsed(tags, DateTimeOriginal, parse));
    var i3 := Apply(i2, DateTimeDigitized, Parsed(tags, DateTimeDigitized, parse));
    var i4 := Apply(i3, CreateDate, Parsed(tags, CreateDate, parse));
    var i5 := Apply(i4, ModifyDate, Parsed(tags, ModifyDate, parse));
    assert FieldOrder[1..][1..][1..][1..][1..] == [];
    assert ApplyAll(i0, FieldOrder, tags, parse) == i5;
  }

  /** The time zone prefers OffsetTime and falls back to OffsetTimeOriginal. */
  lemma TimezonePreference(tags: DateTags, parse: string -> Option<int>)
    ensures tags.offsetTime.Some? ==> ExtractDateTimeInfo(tags, parse).timezone == tags.offsetTime
    ensures tags.offsetTime.None? ==> ExtractDateTimeInfo(tags, parse).timezone == tags.offsetTimeOriginal
  {
  }
}
