/** Stage 2 of the date-time estimator, last step: the user-facing notices
    (`generateWarnings` in js/datetime-estimator.js). */
module DateTimeWarnings {
  import opened Wrappers
  import opened Text
  import opened DateTimeSources
  import opened DateTimeAnalysis
  import opened DateTimeSelection

  /** The `type` of a notice, in the order the notices are emitted. */
  datatype NoticeKind =
    | NoDatetime | Inconsistent | ConflictFound | NoExifOriginal
    | FileModifiedOnly | NoTimeInfo | FilenameTimeExtracted

  datatype Severity = Error | Warning | Info

  datatype Notice = Notice(kind: NoticeKind, message: string, severity: Severity)

  /** The `type` string each notice carries. */
  function KindName(k: NoticeKind): string {
    match k
    case NoDatetime => "no_datetime"
    case Inconsistent => "inconsistent"
    case ConflictFound => "conflict"
    case NoExifOriginal => "no_exif_original"
    case FileModifiedOnly => "file_modified_only"
    case NoTimeInfo => "no_time_info"
    case FilenameTimeExtracted => "filename_time_extracted"
  }

  /** Position of a kind in the emission order. */
  function Ordinal(k: NoticeKind): nat {
    match k
    case NoDatetime => 0
    case Inconsistent => 1
    case ConflictFound => 2
    case NoExifOriginal => 3
    case FileModifiedOnly => 4
    case NoTimeInfo => 5
    case FilenameTimeExtracted => 6
  }

  /** The severity the source attaches to each kind. */
  function SeverityOf(k: NoticeKind): Severity {
    match k
    case NoDatetime => Error
    case Inconsistent => Warning
    case ConflictFound => Warning
    case NoExifOriginal => Info
    case FileModifiedOnly => Warning
    case NoTimeInfo => Info
    case FilenameTimeExtracted => Info
  }

  /** `sources.find(s => s.type === 'filename' && s.hasTime)`. */
  function FindTimedFilename(s: seq<Source>): (r: Option<Source>)
    ensures r.Some? ==> r.value in s && r.value.kind == Filename && r.value.hasTime
    ensures r.None? <==> !HasTimedFilename(s)
  {
    if |s| == 0 then None
    else if s[0].kind == Filename && s[0].hasTime then Some(s[0])
    else
      var rest := FindTimedFilename(s[1..]);
      assert HasTimedFilename(s[1..]) ==> HasTimedFilename(s) by {
        if HasTimedFilename(s[1..]) {
          var k :| 0 <= k < |s[1..]| && s[1..][k].kind == Filename && s[1..][k].hasTime;
          assert s[k + 1] == s[1..][k];
        }
      }
      assert HasTimedFilename(s) ==> HasTimedFilename(s[1..]) by {
        if HasTimedFilename(s) {
          var k :| 0 <= k < |s| && s[k].kind == Filename && s[k].hasTime;
          assert k > 0;
          assert s[1..][k - 1] == s[k];
        }
      }
      rest
  }

  /** The notice for one conflicting pair. */
  function ConflictNotice(c: Conflict): (n: Notice)
    ensures n.kind == ConflictFound && n.severity == Warning
    ensures Contains(n.message, c.source1.description)
    ensures Contains(n.message, c.source2.description)
    ensures Contains(n.message, c.differenceFormatted)
  {
    var m := c.source1.description + "と" + c.source2.description + "に" + c.differenceFormatted + "の差があります";
    ContainsSelf(c.source1.description);
    ContainsPrefixSuffix([], c.source1.description, "と" + c.source2.description + "に" + c.differenceFormatted + "の差があります");
    assert m == [] + c.source1.description + ("と" + c.source2.description + "に" + c.differenceFormatted + "の差があります");
    ContainsSelf(c.source2.description);
    ContainsPrefixSuffix(c.source1.description + "と", c.source2.description, "に" + c.differenceFormatted + "の差があります");
    assert m == (c.source1.description + "と") + c.source2.description + ("に" + c.differenceFormatted + "の差があります");
    ContainsSelf(c.differenceFormatted);
    ContainsPrefixSuffix(c.source1.description + "と" + c.source2.description + "に", c.differenceFormatted, "の差があります");
    Notice(ConflictFound, m, Warning)
  }

  function ConflictNotices(cs: seq<Conflict>): (ns: seq<Notice>)
    ensures |ns| == |cs|
    ensures forall k :: 0 <= k < |ns| ==> ns[k] == ConflictNotice(cs[k])
  {
    seq(|cs|, k requires 0 <= k < |cs| => ConflictNotice(cs[k]))
  }

  function When(c: bool, n: Notice): (ns: seq<Notice>)
    ensures |ns| <= 1
  {
    if c then [n] else []
  }

  /** Exactly one file-modification source and nothing else. */
  predicate FileModifiedOnlyList(s: seq<Source>) {
    |s| == 1 && s[0].kind == FileModified
  }

  function InconsistentPart(a: Analysis): seq<Notice> {
    When(a.consistency == Low, Notice(Inconsistent, "複数の日時情報に大きな差異があります", Warning))
  }

  function NoExifPart(s: seq<Source>): seq<Notice> {
    When(!HasKind(s, ExifOriginal), Notice(NoExifOriginal, "Exif撮影日時が存在しません。推定日時の信頼性が低下します", Info))
  }

  function MtimeOnlyPart(s: seq<Source>): seq<Notice> {
    When(FileModifiedOnlyList(s), Notice(FileModifiedOnly, "ファイル更新日時のみで推定しています。実際の撮影日時と異なる可能性があります", Warning))
  }

  function NoTimePart(a: Analysis): seq<Notice> {
    When(!a.hasTimeInfo, Notice(NoTimeInfo, "時間情報がないため、日付のみの推定です", Info))
  }

  function TimedFilenamePart(s: seq<Source>): (ns: seq<Notice>)
    ensures |ns| <= 1
  {
    match FindTimedFilename(s)
    case None => []
    case Some(x) => [Notice(FilenameTimeExtracted, "ファイル名から時間情報を抽出しました (" + x.matchedText + ")", Info)]
  }

  /** `generateWarnings`. */
  function GenerateWarnings(s: seq<Source>, a: Analysis): (w: seq<Notice>)
    ensures |s| == 0 ==> w == [Notice(NoDatetime, "日時情報が見つかりません", Error)]
    ensures |s| > 0 ==> |w| <= |a.conflicts| + 5
  {
    if |s| == 0 then [Notice(NoDatetime, "日時情報が見つかりません", Error)]
    else
      InconsistentPart(a) + ConflictNotices(a.conflicts) + NoExifPart(s)
      + MtimeOnlyPart(s) + NoTimePart(a) + TimedFilenamePart(s)
  }

  // ----------------------------------------------------------------- counting

  predicate HasNotice(w: seq<Notice>, k: NoticeKind) {
    exists i :: 0 <= i < |w| && w[i].kind == k
  }

  function CountKind(w: seq<Notice>, k: NoticeKind): (c: nat)
    ensures c <= |w|
    ensures c > 0 <==> HasNotice(w, k)
  {
    if |w| == 0 then 0
    else
      var rest := CountKind(w[1..], k);
      assert HasNotice(w, k) <==> w[0].kind == k || HasNotice(w[1..], k) by {
        if HasNotice(w, k) && w[0].kind != k {
          var i :| 0 <= i < |w| && w[i].kind == k;
          assert w[1..][i - 1] == w[i];
        }
        if HasNotice(w[1..], k) {
          var i :| 0 <= i < |w[1..]| && w[1..][i].kind == k;
          assert w[i + 1] == w[1..][i];
        }
      }
      (if w[0].kind == k then 1 else 0) + rest
  }

  lemma {:induction false} CountKindConcat(a: seq<Notice>, b: seq<Notice>, k: NoticeKind)
    ensures CountKind(a + b, k) == CountKind(a, k) + CountKind(b, k)
  {
    if |a| > 0 {
      assert (a + b)[1..] == a[1..] + b;
      CountKindConcat(a[1..], b, k);
    } else {
      assert a + b == b;
    }
  }

  lemma {:induction false} ConflictNoticesCount(cs: seq<Conflict>, k: NoticeKind)
    ensures CountKind(ConflictNotices(cs), k) == if k == ConflictFound then |cs| else 0
  {
    var ns := ConflictNotices(cs);
    if |cs| > 0 {
      assert ns[1..] == ConflictNotices(cs[1..]);
      ConflictNoticesCount(cs[1..], k);
    }
  }

  function Indicator(b: bool): nat {
    if b then 1 else 0
  }

  lemma WhenCounts(c: bool, n: Notice, k: NoticeKind)
    ensures CountKind(When(c, n), k) == Indicator(c && n.kind == k)
  {
    if c { assert When(c, n)[1..] == []; }
  }

  lemma TimedFilenameCount(s: seq<Source>, k: NoticeKind)
    ensures CountKind(TimedFilenamePart(s), k) == Indicator(k == FilenameTimeExtracted && HasTimedFilename(s))
  {
    var ns := TimedFilenamePart(s);
    if |ns| > 0 { assert ns[1..] == []; }
  }

  /** How many notices of each kind a non-empty list produces. */
  function ExpectedCount(s: seq<Source>, a: Analysis, k: NoticeKind): nat {
    match k
    case NoDatetime => 0
    case Inconsistent => Indicator(a.consistency == Low)
    case ConflictFound => |a.conflicts|
    case NoExifOriginal => Indicator(!HasKind(s, ExifOriginal))
    case FileModifiedOnly => Indicator(FileModifiedOnlyList(s))
    case NoTimeInfo => Indicator(!a.hasTimeInfo)
    case FilenameTimeExtracted => Indicator(HasTimedFilename(s))
  }

  /** For a non-empty source list: no `no_datetime` notice, one `conflict`
      notice per conflicting pair, and every other notice present (once)
      exactly when its condition holds. */
  lemma WarningCounts(s: seq<Source>, a: Analysis, k: NoticeKind)
    requires |s| > 0
    ensures CountKind(GenerateWarnings(s, a), k) == ExpectedCount(s, a, k)
  {
    var p0, p1, p2 := InconsistentPart(a), ConflictNotices(a.conflicts), NoExifPart(s);
    var p3, p4, p5 := MtimeOnlyPart(s), NoTimePart(a), TimedFilenamePart(s);
    CountKindConcat(p0, p1, k);
    CountKindConcat(p0 + p1, p2, k);
    CountKindConcat(p0 + p1 + p2, p3, k);
    CountKindConcat(p0 + p1 + p2 + p3, p4, k);
    CountKindConcat(p0 + p1 + p2 + p3 + p4, p5, k);
    WhenCounts(a.consistency == Low, Notice(Inconsistent, "複数の日時情報に大きな差異があります", Warning), k);
    ConflictNoticesCount(a.conflicts, k);
    WhenCounts(!HasKind(s, ExifOriginal), Notice(NoExifOriginal, "Exif撮影日時が存在しません。推定日時の信頼性が低下します", Info), k);
    WhenCounts(FileModifiedOnlyList(s), Notice(FileModifiedOnly, "ファイル更新日時のみで推定しています。実際の撮影日時と異なる可能性があります", Warning), k);
    WhenCounts(!a.hasTimeInfo, Notice(NoTimeInfo, "時間情報がないため、日付のみの推定です", Info), k);
    TimedFilenameCount(s, k);
  }

  /** Which notices a non-empty source list produces. */
  lemma WarningPresence(s: seq<Source>, a: Analysis)
    requires |s| > 0
    ensures HasNotice(GenerateWarnings(s, a), Inconsistent) <==> a.consistency == Low
    ensures HasNotice(GenerateWarnings(s, a), FileModifiedOnly) <==> FileModifiedOnlyList(s)
    ensures HasNotice(GenerateWarnings(s, a), NoExifOriginal) <==> !HasKind(s, ExifOriginal)
    ensures HasNotice(GenerateWarnings(s, a), NoTimeInfo) <==> !a.hasTimeInfo
    ensures HasNotice(GenerateWarnings(s, a), FilenameTimeExtracted) <==> HasTimedFilename(s)
    ensures !HasNotice(GenerateWarnings(s, a), NoDatetime)
  {
    WarningCounts(s, a, Inconsistent);
    WarningCounts(s, a, FileModifiedOnly);
    WarningCounts(s, a, NoExifOriginal);
    WarningCounts(s, a, NoTimeInfo);
    WarningCounts(s, a, FilenameTimeExtracted);
    WarningCounts(s, a, NoDatetime);
  }

  // ------------------------------------------------------------ order, levels

  predicate InEmissionOrder(w: seq<Notice>) {
    forall i, j :: 0 <= i < j < |w| ==> Ordinal(w[i].kind) <= Ordinal(w[j].kind)
  }

  predicate Levelled(w: seq<Notice>) {
    forall i :: 0 <= i < |w| ==> w[i].severity == SeverityOf(w[i].kind)
  }

  /** Every notice in `p` has kind ordinal `o`. */
  predicate OfOrdinal(p: seq<Notice>, o: nat) {
    forall i :: 0 <= i < |p| ==> Ordinal(p[i].kind) == o
  }

  predicate AtMost(p: seq<Notice>, o: nat) {
    forall i :: 0 <= i < |p| ==> Ordinal(p[i].kind) <= o
  }

  /** Appending a part whose kinds all come later keeps the order and the
      severities. */
  lemma {:induction false} AppendPart(a: seq<Notice>, b: seq<Notice>, o: nat)
    requires o >= 1
    requires InEmissionOrder(a) && Levelled(a) && AtMost(a, o - 1)
    requires OfOrdinal(b, o) && Levelled(b)
    ensures InEmissionOrder(a + b) && Levelled(a + b) && AtMost(a + b, o)
  {
    forall i, j | 0 <= i < j < |a + b|
      ensures Ordinal((a + b)[i].kind) <= Ordinal((a + b)[j].kind)
    {
      if j >= |a| {
        assert (a + b)[j] == b[j - |a|];
        if i >= |a| {
          assert (a + b)[i] == b[i - |a|];
        }
      }
    }
    forall i | 0 <= i < |a + b|
      ensures (a + b)[i].severity == SeverityOf((a + b)[i].kind)
      ensures Ordinal((a + b)[i].kind) <= o
    {
      if i >= |a| {
        assert (a + b)[i] == b[i - |a|];
      }
    }
  }

  lemma PartsShaped(s: seq<Source>, a: Analysis)
    ensures OfOrdinal(InconsistentPart(a), 1) && Levelled(InconsistentPart(a))
    ensures OfOrdinal(ConflictNotices(a.conflicts), 2) && Levelled(ConflictNotices(a.conflicts))
    ensures OfOrdinal(NoExifPart(s), 3) && Levelled(NoExifPart(s))
    ensures OfOrdinal(MtimeOnlyPart(s), 4) && Levelled(MtimeOnlyPart(s))
    ensures OfOrdinal(NoTimePart(a), 5) && Levelled(NoTimePart(a))
    ensures OfOrdinal(TimedFilenamePart(s), 6) && Levelled(TimedFilenamePart(s))
  {
  }

  /** Notices come out in the fixed kind order, each with its kind's
      severity. */
  lemma WarningsOrderedAndLevelled(s: seq<Source>, a: Analysis)
    ensures InEmissionOrder(GenerateWarnings(s, a))
    ensures Levelled(GenerateWarnings(s, a))
  {
    if |s| > 0 {
      var p0, p1, p2 := InconsistentPart(a), ConflictNotices(a.conflicts), NoExifPart(s);
      var p3, p4, p5 := MtimeOnlyPart(s), NoTimePart(a), TimedFilenamePart(s);
      assert GenerateWarnings(s, a) == p0 + p1 + p2 + p3 + p4 + p5;
      PartsShaped(s, a);
      var q: seq<Notice> := [];
      AppendPart(q, p0, 1);
      assert q + p0 == p0;
      AppendPart(p0, p1, 2);
      AppendPart(p0 + p1, p2, 3);
      AppendPart(p0 + p1 + p2, p3, 4);
      AppendPart(p0 + p1 + p2 + p3, p4, 5);
      AppendPart(p0 + p1 + p2 + p3 + p4, p5, 6);
    }
  }
}
