/** Stage 2 of the date-time estimator, first step: the date-time sources
    (`collectDateTimeSources` in js/datetime-estimator.js). */
module DateTimeSources {
  import opened Wrappers
  import opened LocalClock
  import StableSort
  import FD = FilenameDates

  datatype SourceType = ExifOriginal | ExifDigitized | ExifModified | Filename | FileModified

  /** One date-time source. `matchedText` is empty for sources that do not
      come from the file name. */
  datatype Source = Source(
    kind: SourceType, date: int, reliability: real, description: string,
    hasTime: bool, matchedText: string)

  /** The three EXIF instants the metadata parser recovered, if any. */
  datatype ExifDates = ExifDates(original: Option<int>, digitized: Option<int>, modified: Option<int>)

  /** The source an EXIF field of the given kind produces. */
  function ExifSource(kind: SourceType, t: int): Source
    requires IsExifKind(kind)
  {
    match kind
    case ExifOriginal => Source(ExifOriginal, t, 0.95, "Exif撮影日時", true, "")
    case ExifDigitized => Source(ExifDigitized, t, 0.85, "Exifデジタル化日時", true, "")
    case ExifModified => Source(ExifModified, t, 0.65, "Exif更新日時", true, "")
  }

  /** The file's last-modified time: always present, time-bearing, 0.3. */
  function MtimeSource(lastModified: int): Source {
    Source(FileModified, lastModified, 0.3, "ファイル更新日時", true, "")
  }

  function FilenameSource(r: FD.FilenameResult): Source {
    Source(Filename, r.date, r.reliability, "ファイル名 (" + FD.FormatName(r.format) + ")",
           r.hasTime, r.matchedText)
  }

  function OptionalExif(kind: SourceType, field: Option<int>): (e: seq<Source>)
    requires IsExifKind(kind)
    ensures forall x :: multiset(e)[x] == if field.Some? && x == ExifSource(kind, field.value) then 1 else 0
  {
    if field.Some? then [ExifSource(kind, field.value)] else []
  }

  /** The fixed reliability of each EXIF field: original 0.95, digitized
      0.85, modified 0.65. */
  function ExifReliability(kind: SourceType): real
    requires IsExifKind(kind)
  {
    match kind
    case ExifOriginal => 0.95
    case ExifDigitized => 0.85
    case ExifModified => 0.65
  }

  predicate IsExifKind(kind: SourceType) {
    kind.ExifOriginal? || kind.ExifDigitized? || kind.ExifModified?
  }

  /** The EXIF field a kind of source comes from. */
  function FieldOf(exif: ExifDates, kind: SourceType): Option<int>
    requires IsExifKind(kind)
  {
    match kind
    case ExifOriginal => exif.original
    case ExifDigitized => exif.digitized
    case ExifModified => exif.modified
  }

  /** The EXIF sources, in push order. */
  function ExifPart(exif: ExifDates): (e: seq<Source>)
    ensures forall i :: 0 <= i < |e| ==> IsExifKind(e[i].kind) && WellFormed(e[i])
    ensures forall i :: 0 <= i < |e| ==> FieldOf(exif, e[i].kind) == Some(e[i].date)
    ensures forall i :: 0 <= i < |e| ==> IsExifKind(e[i].kind) && e[i] == ExifSource(e[i].kind, e[i].date)
    ensures forall i, j :: 0 <= i < j < |e| ==> e[i].kind != e[j].kind
    ensures forall k :: IsExifKind(k) && FieldOf(exif, k).Some? ==> ExifSource(k, FieldOf(exif, k).value) in e
  {
    OptionalExif(ExifOriginal, exif.original)
    + OptionalExif(ExifDigitized, exif.digitized)
    + OptionalExif(ExifModified, exif.modified)
  }

  /** The file-name sources, in result order. */
  function FilenamePart(names: seq<FD.FilenameResult>): (f: seq<Source>)
    requires forall i :: 0 <= i < |names| ==> FD.TableReliability(names[i].reliability)
    ensures |f| == |names|
    ensures forall i :: 0 <= i < |f| ==> f[i] == FilenameSource(names[i])
    ensures forall i :: 0 <= i < |f| ==> f[i].kind == Filename && WellFormed(f[i])
  {
    var f := seq(|names|, i requires 0 <= i < |names| => FilenameSource(names[i]));
    assert forall i :: 0 <= i < |f| ==> f[i].reliability == names[i].reliability && FD.TableReliability(names[i].reliability);
    f
  }

  /** The sources in push order, before sorting. */
  function UnsortedSources(exif: ExifDates, names: seq<FD.FilenameResult>, lastModified: int): (u: seq<Source>)
    requires forall i :: 0 <= i < |names| ==> FD.TableReliability(names[i].reliability)
  {
    ExifPart(exif) + FilenamePart(names) + [MtimeSource(lastModified)]
  }

  /** Sources rank time-bearing first, then by reliability. */
  function TimeRank(s: Source): StableSort.Rank {
    StableSort.Rank(if s.hasTime then 1 else 0, s.reliability)
  }

  /** A reliability in [0, 1], and only file-name sources may be date-only. */
  predicate WellFormed(s: Source) {
    && 0.0 <= s.reliability <= 1.0
    && (!s.kind.Filename? ==> s.hasTime)
  }

  predicate SortedSources(r: seq<Source>) {
    forall i, j :: 0 <= i < j < |r| ==>
      && (r[i].hasTime || !r[j].hasTime)
      && (r[i].hasTime == r[j].hasTime ==> r[i].reliability >= r[j].reliability)
  }

  lemma RankSortedSources(r: seq<Source>)
    requires StableSort.SortedBy(r, TimeRank)
    ensures SortedSources(r)
  {
    forall i, j | 0 <= i < j < |r|
      ensures (r[i].hasTime || !r[j].hasTime)
      ensures (r[i].hasTime == r[j].hasTime ==> r[i].reliability >= r[j].reliability)
    {
      assert !StableSort.Before(TimeRank(r[j]), TimeRank(r[i]));
    }
  }

  /** A value at two different positions occurs at least twice. */
  lemma TwoPositionsTwoCopies<T>(s: seq<T>, i: nat, j: nat)
    requires i < j < |s| && s[i] == s[j]
    ensures multiset(s)[s[i]] >= 2
  {
    assert s == s[..i] + [s[i]] + s[i + 1..j] + [s[j]] + s[j + 1..];
  }

  /** In a permutation of `u`, a source of a kind that `u` holds exactly once
      as `x` is `x` and stands at a single position. */
  lemma UniqueKindSurvives(r: seq<Source>, u: seq<Source>, kind: SourceType, x: Source)
    requires multiset(r) == multiset(u)
    requires forall i :: 0 <= i < |u| && u[i].kind == kind ==> u[i] == x
    requires x in u ==> multiset(u)[x] == 1
    ensures forall i :: 0 <= i < |r| && r[i].kind == kind ==> r[i] == x
    ensures forall i, j :: 0 <= i < |r| && 0 <= j < |r| && r[i].kind == kind && r[j].kind == kind ==> i == j
  {
    forall i | 0 <= i < |r| && r[i].kind == kind
      ensures r[i] == x
    {
      assert r[i] in multiset(r);
      assert r[i] in u;
    }
    forall i, j | 0 <= i < |r| && 0 <= j < |r| && r[i].kind == kind && r[j].kind == kind
      ensures i == j
    {
      if i != j {
        assert r[i] in multiset(r);
        if i < j { TwoPositionsTwoCopies(r, i, j); } else { TwoPositionsTwoCopies(r, j, i); }
      }
    }
  }

  predicate AllWellFormed(s: seq<Source>) {
    forall i :: 0 <= i < |s| ==> WellFormed(s[i])
  }

  lemma ConcatWellFormed(a: seq<Source>, b: seq<Source>)
    requires AllWellFormed(a) && AllWellFormed(b)
    ensures AllWellFormed(a + b)
  {
    forall i | 0 <= i < |a + b| ensures WellFormed((a + b)[i]) {
      if i < |a| { assert (a + b)[i] == a[i]; } else { assert (a + b)[i] == b[i - |a|]; }
    }
  }

  /** Every unsorted source is well formed. */
  lemma UnsortedWellFormed(exif: ExifDates, names: seq<FD.FilenameResult>, lastModified: int)
    requires forall i :: 0 <= i < |names| ==> FD.TableReliability(names[i].reliability)
    ensures AllWellFormed(UnsortedSources(exif, names, lastModified))
  {
    var e := ExifPart(exif);
    var f := FilenamePart(names);
    var m := [MtimeSource(lastModified)];
    assert AllWellFormed(e);
    assert AllWellFormed(f);
    assert AllWellFormed(m);
    ConcatWellFormed(e, f);
    ConcatWellFormed(e + f, m);
  }

  /** A source of a fixed kind in the unsorted list is the one the kind's
      field gives. */
  lemma UnsortedKinds(exif: ExifDates, names: seq<FD.FilenameResult>, lastModified: int)
    requires forall i :: 0 <= i < |names| ==> FD.TableReliability(names[i].reliability)
    ensures var u := UnsortedSources(exif, names, lastModified);
      && (forall i :: 0 <= i < |u| && u[i].kind == FileModified ==> u[i] == MtimeSource(lastModified))
      && (forall i :: 0 <= i < |u| && IsExifKind(u[i].kind) ==>
            FieldOf(exif, u[i].kind).Some? && u[i] == ExifSource(u[i].kind, FieldOf(exif, u[i].kind).value))
  {
    var e := ExifPart(exif);
    var f := FilenamePart(names);
    var u := UnsortedSources(exif, names, lastModified);
    forall i | 0 <= i < |u|
      ensures u[i].kind == FileModified ==> u[i] == MtimeSource(lastModified)
      ensures IsExifKind(u[i].kind) ==>
            FieldOf(exif, u[i].kind).Some? && u[i] == ExifSource(u[i].kind, FieldOf(exif, u[i].kind).value)
    {
      if i < |e| { assert u[i] == e[i]; }
      else if i < |e| + |f| { assert u[i] == f[i - |e|]; }
    }
  }

  /** The unsorted list holds the modification-time source once. */
  lemma UnsortedMtimeOnce(exif: ExifDates, names: seq<FD.FilenameResult>, lastModified: int)
    requires forall i :: 0 <= i < |names| ==> FD.TableReliability(names[i].reliability)
    ensures multiset(UnsortedSources(exif, names, lastModified))[MtimeSource(lastModified)] == 1
  {
    var e := ExifPart(exif);
    var f := FilenamePart(names);
    var m := MtimeSource(lastModified);
    assert multiset(UnsortedSources(exif, names, lastModified)) == multiset(e) + multiset(f) + multiset([m]);
    assert m !in e;
    assert m !in f;
  }

  /** The unsorted list holds the source of a present EXIF field once. */
  lemma UnsortedExifOnce(exif: ExifDates, names: seq<FD.FilenameResult>, lastModified: int, kind: SourceType)
    requires forall i :: 0 <= i < |names| ==> FD.TableReliability(names[i].reliability)
    requires IsExifKind(kind) && FieldOf(exif, kind).Some?
    ensures multiset(UnsortedSources(exif, names, lastModified))[ExifSource(kind, FieldOf(exif, kind).value)] == 1
  {
    var x := ExifSource(kind, FieldOf(exif, kind).value);
    var e := ExifPart(exif);
    var f := FilenamePart(names);
    var m := MtimeSource(lastModified);
    assert multiset(UnsortedSources(exif, names, lastModified)) == multiset(e) + multiset(f) + multiset([m]);
    assert x !in f;
    assert multiset(e) == multiset(OptionalExif(ExifOriginal, exif.original))
      + multiset(OptionalExif(ExifDigitized, exif.digitized))
      + multiset(OptionalExif(ExifModified, exif.modified));
  }

  /** A source of an EXIF kind is in the unsorted list exactly when the
      field is present, and it then carries that field's instant, a time and
      the kind's fixed reliability. */
  lemma UnsortedExifPresence(exif: ExifDates, names: seq<FD.FilenameResult>, lastModified: int, kind: SourceType)
    requires forall i :: 0 <= i < |names| ==> FD.TableReliability(names[i].reliability)
    requires IsExifKind(kind)
    ensures var u := UnsortedSources(exif, names, lastModified);
            && (FieldOf(exif, kind).Some? <==> exists i :: 0 <= i < |u| && u[i].kind == kind)
            && (forall i :: 0 <= i < |u| && u[i].kind == kind ==>
                  FieldOf(exif, kind) == Some(u[i].date) && u[i].hasTime && u[i].reliability == ExifReliability(kind))
  {
    var e := ExifPart(exif);
    var u := UnsortedSources(exif, names, lastModified);
    UnsortedKinds(exif, names, lastModified);
    if FieldOf(exif, kind).Some? {
      var x := ExifSource(kind, FieldOf(exif, kind).value);
      var i :| 0 <= i < |e| && e[i] == x;
      assert u[i] == x;
    }
  }

  /** The file's modification time is among the sources exactly once. */
  predicate OneMtime(r: seq<Source>, lastModified: int) {
    && multiset(r)[MtimeSource(lastModified)] == 1
    && forall i :: 0 <= i < |r| && r[i].kind == FileModified ==> r[i] == MtimeSource(lastModified)
  }

  /** A source of an EXIF kind is there exactly when its field is, it carries
      that field's instant and the kind's fixed reliability, and it is there
      once. */
  predicate ExifReflected(r: seq<Source>, exif: ExifDates, kind: SourceType)
    requires IsExifKind(kind)
  {
    && (FieldOf(exif, kind).Some? <==> exists i :: 0 <= i < |r| && r[i].kind == kind)
    && (forall i :: 0 <= i < |r| && r[i].kind == kind ==>
          FieldOf(exif, kind) == Some(r[i].date) && r[i].reliability == ExifReliability(kind))
    && (forall i, j :: 0 <= i < |r| && 0 <= j < |r| && r[i].kind == kind && r[j].kind == kind ==> i == j)
  }

  /** `collectDateTimeSources`: one source per present EXIF instant, one per
      file-name result, the file's modification time, sorted time-bearing
      first and then by non-increasing reliability (stable). */
  function CollectDateTimeSources(
    exif: ExifDates, matchAll: FD.Format -> seq<FD.RawMatch>, lastModified: int, now: int, cal: Calendar)
    : (r: seq<Source>)
    ensures multiset(r) == multiset(UnsortedSources(exif, FD.ExtractAllDatesFromFilename(matchAll, now, cal), lastModified))
    ensures SortedSources(r)
    ensures forall i :: 0 <= i < |r| ==> WellFormed(r[i])
    ensures OneMtime(r, lastModified)
    ensures ExifReflected(r, exif, ExifOriginal)
    ensures ExifReflected(r, exif, ExifDigitized)
    ensures ExifReflected(r, exif, ExifModified)
  {
    var names := FD.ExtractAllDatesFromFilename(matchAll, now, cal);
    var u := UnsortedSources(exif, names, lastModified);
    var r := StableSort.Sort(u, TimeRank);
    RankSortedSources(r);
    UnsortedWellFormed(exif, names, lastModified);
    PermutationKeepsWellFormed(r, u);
    UnsortedKinds(exif, names, lastModified);
    UnsortedMtimeOnce(exif, names, lastModified);
    UniqueKindSurvives(r, u, FileModified, MtimeSource(lastModified));
    ExifSurvives(r, exif, names, lastModified, ExifOriginal);
    ExifSurvives(r, exif, names, lastModified, ExifDigitized);
    ExifSurvives(r, exif, names, lastModified, ExifModified);
    r
  }

  lemma PermutationKeepsWellFormed(r: seq<Source>, u: seq<Source>)
    requires multiset(r) == multiset(u)
    requires AllWellFormed(u)
    ensures forall i :: 0 <= i < |r| ==> WellFormed(r[i])
  {
    forall i | 0 <= i < |r|
      ensures WellFormed(r[i])
    {
      assert r[i] in multiset(r);
      assert r[i] in u;
    }
  }

  lemma ExifSurvives(r: seq<Source>, exif: ExifDates, names: seq<FD.FilenameResult>, lastModified: int, kind: SourceType)
    requires forall i :: 0 <= i < |names| ==> FD.TableReliability(names[i].reliability)
    requires IsExifKind(kind)
    requires multiset(r) == multiset(UnsortedSources(exif, names, lastModified))
    ensures ExifReflected(r, exif, kind)
  {
    var u := UnsortedSources(exif, names, lastModified);
    UnsortedKinds(exif, names, lastModified);
    UnsortedExifPresence(exif, names, lastModified, kind);
    KindPresence(r, u, kind);
    if FieldOf(exif, kind).Some? {
      var x := ExifSource(kind, FieldOf(exif, kind).value);
      UnsortedExifOnce(exif, names, lastModified, kind);
      UniqueKindSurvives(r, u, kind, x);
    } else {
      assert forall i :: 0 <= i < |r| ==> r[i].kind != kind;
    }
  }

  lemma KindPresence(r: seq<Source>, u: seq<Source>, kind: SourceType)
    requires multiset(r) == multiset(u)
    ensures (exists i :: 0 <= i < |r| && r[i].kind == kind) <==> (exists i :: 0 <= i < |u| && u[i].kind == kind)
  {
    if i :| 0 <= i < |r| && r[i].kind == kind {
      assert r[i] in multiset(u);
      var j :| 0 <= j < |u| && u[j] == r[i];
    }
    if i :| 0 <= i < |u| && u[i].kind == kind {
      assert u[i] in multiset(r);
      var j :| 0 <= j < |r| && r[j] == u[i];
    }
  }
}
