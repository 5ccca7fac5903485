/** `estimateDateTime` in js/datetime-estimator.js: the whole pipeline from
    EXIF instants, a file name's pattern matches and the file's modification
    time to an estimate with its confidence and notices. */
module DateTimeEstimator {
  import opened Wrappers
  import opened LocalClock
  import FD = FilenameDates
  import opened DateTimeSources
  import opened DateTimeAnalysis
  import opened DateTimeSelection
  import opened DateTimeWarnings

  datatype Estimate = Estimate(
    sources: seq<Source>, analysis: Analysis, estimated: Option<int>,
    confidence: real, warnings: seq<Notice>)

  /** `estimateDateTime`, without the display strings. */
  function EstimateDateTime(
    exif: ExifDates, matchAll: FD.Format -> seq<FD.RawMatch>, lastModified: int, now: int, cal: Calendar)
    : (e: Estimate)
    ensures e.sources == CollectDateTimeSources(exif, matchAll, lastModified, now, cal)
    ensures multiset(e.sources) == multiset(UnsortedSources(exif, FD.ExtractAllDatesFromFilename(matchAll, now, cal), lastModified))
    ensures SortedSources(e.sources)
    ensures OneMtime(e.sources, lastModified)
    ensures e.analysis == AnalyzeDateTimeSources(e.sources)
    ensures e.estimated == SelectBestDateTime(e.sources, e.analysis)
    ensures e.confidence == CalculateConfidence(e.sources, e.analysis)
    ensures e.warnings == GenerateWarnings(e.sources, e.analysis)
    ensures forall i :: 0 <= i < |e.sources| ==> WellFormed(e.sources[i])
    ensures ExifReflected(e.sources, exif, ExifOriginal)
    ensures ExifReflected(e.sources, exif, ExifDigitized)
    ensures ExifReflected(e.sources, exif, ExifModified)
  {
    var s := CollectDateTimeSources(exif, matchAll, lastModified, now, cal);
    var a := AnalyzeDateTimeSources(s);
    Estimate(s, a, SelectBestDateTime(s, a), CalculateConfidence(s, a), GenerateWarnings(s, a))
  }

  /** The modification time is always a source, so there is always an
      estimate and never a `no_datetime` notice. */
  lemma AlwaysEstimated(exif: ExifDates, matchAll: FD.Format -> seq<FD.RawMatch>, lastModified: int, now: int, cal: Calendar)
    ensures EstimateDateTime(exif, matchAll, lastModified, now, cal).estimated.Some?
    ensures !HasNotice(EstimateDateTime(exif, matchAll, lastModified, now, cal).warnings, NoDatetime)
  {
    var e := EstimateDateTime(exif, matchAll, lastModified, now, cal);
    assert MtimeSource(lastModified) in multiset(e.sources);
    WarningPresence(e.sources, e.analysis);
  }

  /** An EXIF original capture time is always the estimate. */
  lemma OriginalIsEstimate(exif: ExifDates, matchAll: FD.Format -> seq<FD.RawMatch>, lastModified: int, now: int, cal: Calendar)
    requires exif.original.Some?
    ensures EstimateDateTime(exif, matchAll, lastModified, now, cal).estimated == exif.original
  {
    var e := EstimateDateTime(exif, matchAll, lastModified, now, cal);
    var i :| 0 <= i < |e.sources| && e.sources[i].kind == ExifOriginal;
    assert WellFormed(e.sources[i]);
    OriginalWins(e.sources, e.analysis, i);
  }

  /** The confidence always lies in [0, 1]. */
  lemma ConfidenceInUnitRange(exif: ExifDates, matchAll: FD.Format -> seq<FD.RawMatch>, lastModified: int, now: int, cal: Calendar)
    ensures 0.0 <= EstimateDateTime(exif, matchAll, lastModified, now, cal).confidence <= 1.0
  {
    var e := EstimateDateTime(exif, matchAll, lastModified, now, cal);
    assert MtimeSource(lastModified) in multiset(e.sources);
    assert WellFormed(e.sources[0]);
    ConfidenceNonNegative(e.sources, e.analysis);
  }
}
