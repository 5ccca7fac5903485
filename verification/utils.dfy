/** File classification and validation (`FileUtils` in js/utils.js). */
module FileUtils {
  import opened Text

  datatype FileKind = Image | Video | Unknown

  const ImageTypes: seq<string> := ["jpg", "jpeg", "png", "gif", "bmp", "tiff", "tif", "webp"]
  const VideoTypes: seq<string> := ["mp4", "avi", "mov", "wmv", "flv", "webm"]

  /** `fileName.split('.').pop()`: the text after the last '.', or the whole
      name when it has none. */
  function LastSegment(name: string): (ext: string)
    ensures |ext| <= |name| && name[|name| - |ext|..] == ext
    ensures '.' !in ext
    ensures |ext| < |name| ==> name[|name| - |ext| - 1] == '.'
  {
    if |name| == 0 then ""
    else if name[|name| - 1] == '.' then ""
    else
      var init := name[..|name| - 1];
      var e := LastSegment(init);
      assert name[|name| - (|e| + 1)..] == init[|init| - |e|..] + [name[|name| - 1]];
      e + [name[|name| - 1]]
  }

  function Classify(ext: string): FileKind {
    if ext in ImageTypes then Image
    else if ext in VideoTypes then Video
    else Unknown
  }

  /** `getFileType`. Lower-casing is ASCII-only here; no other character
      lower-cases into an extension of either list except through a
      sequence the lists do not contain. */
  function GetFileType(name: string): FileKind {
    Classify(ToLower(LastSegment(name)))
  }

  /** The extension is whatever follows the last dot. */
  lemma {:induction false} LastSegmentAfterDot(stem: string, ext: string)
    requires '.' !in ext
    ensures LastSegment(stem + "." + ext) == ext
  {
    if |ext| > 0 {
      var name := stem + "." + ext;
      assert name[..|name| - 1] == stem + "." + ext[..|ext| - 1];
      assert name[|name| - 1] == ext[|ext| - 1];
      LastSegmentAfterDot(stem, ext[..|ext| - 1]);
    }
  }

  /** A file's type is decided by its last extension, ignoring case. */
  lemma FileTypeByExtension(stem: string, ext: string)
    requires '.' !in ext
    ensures GetFileType(stem + "." + ext) == Classify(ToLower(ext))
  {
    LastSegmentAfterDot(stem, ext);
  }

  /** A name without a dot is its own extension. */
  lemma DotlessNameIsExtension(name: string)
    requires '.' !in name
    ensures GetFileType(name) == Classify(ToLower(name))
  {
  }

  lemma UpperCaseImage()
    ensures GetFileType("IMG_0001.JPG") == Image
  {
    FileTypeByExtension("IMG_0001", "JPG");
    assert ToLower("JPG") == "jpg";
  }

  /** Only the last extension counts. */
  lemma DoubleExtension()
    ensures GetFileType("photo.jpg.gz") == Unknown
  {
    FileTypeByExtension("photo.jpg", "gz");
    assert ToLower("gz") == "gz";
  }

  /** 100 MiB. */
  const MaxFileSize: int := 100 * 1024 * 1024
  const AllowedTypes: seq<string> := ["image/jpeg", "image/png", "image/tiff", "video/mp4"]
  const SizeError: string := "ファイルサイズが大きすぎます（100MB以下にしてください）"
  const TypeError: string := "サポートされていないファイル形式です"

  datatype Validation = Validation(isValid: bool, errors: seq<string>)

  /** `validateFile`, given the file's size and MIME type. */
  function ValidateFile(size: int, mimeType: string): (v: Validation)
    ensures v.isValid <==> |v.errors| == 0
    ensures |v.errors| <= 2
    ensures SizeError in v.errors <==> size > MaxFileSize
    ensures TypeError in v.errors <==> mimeType !in AllowedTypes
    ensures size > MaxFileSize ==> v.errors[0] == SizeError
    ensures forall e :: e in v.errors ==> e == SizeError || e == TypeError
  {
    var sizeErrors := if size > MaxFileSize then [SizeError] else [];
    var typeErrors := if mimeType !in AllowedTypes then [TypeError] else [];
    Validation(|sizeErrors| + |typeErrors| == 0, sizeErrors + typeErrors)
  }

  /** The size limit is inclusive. */
  lemma SizeBoundary()
    ensures ValidateFile(104857600, "image/jpeg").isValid
    ensures ValidateFile(104857601, "image/jpeg") == Validation(false, [SizeError])
    ensures ValidateFile(104857601, "image/gif") == Validation(false, [SizeError, TypeError])
  {
    assert "image/gif" != AllowedTypes[0] && "image/gif" != AllowedTypes[1];
  }
}

/** `datetime-local` rendering (`DateUtils.formatForInput` in js/utils.js). */
module DateUtils {
  import opened Wrappers
  import opened Text
  import opened JsValues
  import opened LocalClock

  /** `String(x).padStart(2, '0')`. */
  function Pad2(x: int): string {
    PadStart2(IntToString(x))
  }

  /** `formatForInput`: '' for anything that is not a Date; an invalid Date
      renders each NaN field as "NaN". */
  function FormatForInput(d: JsDate, cal: Calendar): (s: string)
    ensures d.NotADate? <==> s == ""
  {
    match d
    case NotADate => ""
    case InvalidDate => "NaN-NaN-NaNTNaN:NaN"
    case ValidDate(ms) =>
      var f := cal.fieldsOf(ms);
      IntToString(f.year) + "-" + Pad2(f.month0 + 1) + "-" + Pad2(f.day)
      + "T" + Pad2(f.hours) + ":" + Pad2(f.minutes)
  }

  datatype InputFields = InputFields(year: nat, month: nat, day: nat, hours: nat, minutes: nat)

  /** How a `datetime-local` input reads a `YYYY-MM-DDTHH:MM` value. */
  function ParseInput(s: string): Option<InputFields> {
    if |s| == 16 && s[4] == '-' && s[7] == '-' && s[10] == 'T' && s[13] == ':'
       && AllDigits(s[..4]) && AllDigits(s[5..7]) && AllDigits(s[8..10])
       && AllDigits(s[11..13]) && AllDigits(s[14..16])
    then Some(InputFields(DigitsValue(s[..4]), DigitsValue(s[5..7]), DigitsValue(s[8..10]),
                          DigitsValue(s[11..13]), DigitsValue(s[14..16])))
    else None
  }

  lemma FourDigits(n: nat)
    requires 1000 <= n <= 9999
    ensures |NatToString(n)| == 4
  {
    assert |NatToString(n / 10 / 10 / 10)| == 1;
    assert |NatToString(n / 10 / 10)| == 2;
    assert |NatToString(n / 10)| == 3;
  }

  /** Where the five fields sit in a `YYYY-MM-DDTHH:MM` value. */
  lemma Layout(y: string, mo: string, dd: string, hh: string, mi: string)
    requires |y| == 4 && |mo| == 2 && |dd| == 2 && |hh| == 2 && |mi| == 2
    ensures var s := y + "-" + mo + "-" + dd + "T" + hh + ":" + mi;
      && |s| == 16 && s[4] == '-' && s[7] == '-' && s[10] == 'T' && s[13] == ':'
      && s[..4] == y && s[5..7] == mo && s[8..10] == dd && s[11..13] == hh && s[14..16] == mi
  {
  }

  /** Rendering five in-range numbers and reading them back. */
  lemma RenderedFieldsReadBack(year: nat, month: nat, day: nat, hours: nat, minutes: nat)
    requires 1000 <= year <= 9999 && month < 100 && day < 100 && hours < 100 && minutes < 100
    ensures ParseInput(IntToString(year) + "-" + Pad2(month) + "-" + Pad2(day) + "T" + Pad2(hours) + ":" + Pad2(minutes))
            == Some(InputFields(year, month, day, hours, minutes))
  {
    FourDigits(year);
    NatToStringRoundTrip(year);
    TwoDigitRoundTrip(month);
    TwoDigitRoundTrip(day);
    TwoDigitRoundTrip(hours);
    TwoDigitRoundTrip(minutes);
    Layout(IntToString(year), Pad2(month), Pad2(day), Pad2(hours), Pad2(minutes));
  }

  /** For a four-digit year and in-range fields the rendered value reads
      back as the Date's own local fields, with the month one-based. */
  lemma FormatForInputRoundTrip(ms: int, cal: Calendar)
    requires 1000 <= cal.fieldsOf(ms).year <= 9999
    requires 0 <= cal.fieldsOf(ms).month0 <= 11 && 1 <= cal.fieldsOf(ms).day <= 31
    requires 0 <= cal.fieldsOf(ms).hours <= 23 && 0 <= cal.fieldsOf(ms).minutes <= 59
    ensures ParseInput(FormatForInput(ValidDate(ms), cal))
            == Some(InputFields(cal.fieldsOf(ms).year, cal.fieldsOf(ms).month0 + 1, cal.fieldsOf(ms).day,
                                cal.fieldsOf(ms).hours, cal.fieldsOf(ms).minutes))
  {
    var f := cal.fieldsOf(ms);
    RenderedFieldsReadBack(f.year, f.month0 + 1, f.day, f.hours, f.minutes);
  }

  lemma InvalidDateText(cal: Calendar)
    ensures ParseInput(FormatForInput(InvalidDate, cal)).None?
    ensures |FormatForInput(InvalidDate, cal)| == 19
  {
  }
}

/** Degrees-minutes-seconds conversion (`GeoUtils.dmsToDecimal` in
    js/utils.js). */
module GeoUtils {
  function Abs(x: real): real {
    if x < 0.0 then -x else x
  }

  predicate IsSouthOrWest(direction: string) {
    direction == "S" || direction == "W"
  }

  /** `dmsToDecimal`. */
  function DmsToDecimal(degrees: real, minutes: real, seconds: real, direction: string): real {
    var decimal := Abs(degrees) + minutes / 60.0 + seconds / 3600.0;
    if IsSouthOrWest(direction) then -decimal else decimal
  }

  /** The northern value is the angle in arc-seconds over 3600; the
      direction only sets the sign (negated for 'S' and 'W', unchanged for
      anything else), and the sign of the degrees is ignored. */
  lemma DirectionOnlySetsSign(degrees: real, minutes: real, seconds: real, direction: string)
    ensures DmsToDecimal(degrees, minutes, seconds, "N") * 3600.0 == Abs(degrees) * 3600.0 + minutes * 60.0 + seconds
    ensures Abs(DmsToDecimal(degrees, minutes, seconds, direction)) == Abs(DmsToDecimal(degrees, minutes, seconds, "N"))
    ensures DmsToDecimal(-degrees, minutes, seconds, direction) == DmsToDecimal(degrees, minutes, seconds, direction)
    ensures IsSouthOrWest(direction) ==> DmsToDecimal(degrees, minutes, seconds, direction) == -DmsToDecimal(degrees, minutes, seconds, "N")
    ensures !IsSouthOrWest(direction) ==> DmsToDecimal(degrees, minutes, seconds, direction) == DmsToDecimal(degrees, minutes, seconds, "N")
  {
  }

  /** With non-negative minutes and seconds the result is negative exactly
      for 'S' and 'W' (when the magnitude is not zero). */
  lemma SignFollowsDirection(degrees: real, minutes: real, seconds: real, direction: string)
    requires minutes >= 0.0 && seconds >= 0.0
    requires degrees != 0.0 || minutes != 0.0 || seconds != 0.0
    ensures DmsToDecimal(degrees, minutes, seconds, direction) < 0.0 <==> IsSouthOrWest(direction)
  {
  }

  /** Lower-case direction letters are not recognised. */
  lemma LowerCaseSouthIsNorth(degrees: real, minutes: real, seconds: real)
    ensures DmsToDecimal(degrees, minutes, seconds, "s") == DmsToDecimal(degrees, minutes, seconds, "N")
  {
  }
}
