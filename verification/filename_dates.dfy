/** Stage 1 of the date-time estimator: timestamp candidates read out of a
    file name (`extractAllDatesFromFilename`, `parseMatchedDate`,
    `isValidDate` in js/datetime-estimator.js).

    The regular-expression engine is not modelled: for each entry of the
    pattern table, `matchAll(format)` stands for the matches
    `filename.matchAll(pattern)` yields, each with its capture groups (already
    read as decimal numbers) and the matched text. */
module FilenameDates {
  import opened Wrappers
  import opened LocalClock
  import StableSort

  /** The format identifiers of the pattern table. */
  datatype Format =
    | DateTimeSeparated      // 'YYYY-MM-DD HH:MM:SS'
    | CompactDateTime        // 'YYYYMMDD_HHMMSS'
    | ContinuousDateTime     // 'YYYYMMDDHHMMSS'
    | ImgPrefixed            // 'IMG_YYYYMMDD_HHMMSS'
    | DscPrefixed            // 'DSC_YYYYMMDD_HHMMSS'
    | PhotoLabelled          // 'PHOTO_YYYY_MM_DD_HH_MM_SS'
    | ScreenshotLabelled     // 'Screenshot_YYYY-MM-DD-HH-MM-SS'
    | DateHourMinute         // 'YYYY-MM-DD HH:MM'
    | CompactHourMinute      // 'YYYYMMDD_HHMM'
    | VidPrefixed            // 'VID_YYYYMMDD_HHMMSS'
    | IsoDateTime            // 'ISO_DATETIME'
    | JapaneseDateTime       // 'YYYY-MM-DD HH時MM分SS秒'
    | DateSeparated          // 'YYYY-MM-DD'
    | DateCompact            // 'YYYYMMDD'
    | WhatsApp               // 'WhatsApp'
    | UnixSeconds            // 'Unix_timestamp'
    | UnixMillis             // 'Unix_timestamp_ms'

  /** The format identifier as the source spells it. */
  function FormatName(f: Format): string {
    match f
    case DateTimeSeparated => "YYYY-MM-DD HH:MM:SS"
    case CompactDateTime => "YYYYMMDD_HHMMSS"
    case ContinuousDateTime => "YYYYMMDDHHMMSS"
    case ImgPrefixed => "IMG_YYYYMMDD_HHMMSS"
    case DscPrefixed => "DSC_YYYYMMDD_HHMMSS"
    case PhotoLabelled => "PHOTO_YYYY_MM_DD_HH_MM_SS"
    case ScreenshotLabelled => "Screenshot_YYYY-MM-DD-HH-MM-SS"
    case DateHourMinute => "YYYY-MM-DD HH:MM"
    case CompactHourMinute => "YYYYMMDD_HHMM"
    case VidPrefixed => "VID_YYYYMMDD_HHMMSS"
    case IsoDateTime => "ISO_DATETIME"
    case JapaneseDateTime => "YYYY-MM-DD HH時MM分SS秒"
    case DateSeparated => "YYYY-MM-DD"
    case DateCompact => "YYYYMMDD"
    case WhatsApp => "WhatsApp"
    case UnixSeconds => "Unix_timestamp"
    case UnixMillis => "Unix_timestamp_ms"
  }

  /** Full date and time with seconds. */
  predicate IsSecondFormat(f: Format) {
    f.DateTimeSeparated? || f.CompactDateTime? || f.ContinuousDateTime? || f.ImgPrefixed?
    || f.DscPrefixed? || f.VidPrefixed? || f.PhotoLabelled? || f.ScreenshotLabelled?
    || f.IsoDateTime? || f.JapaneseDateTime?
  }

  /** Date with hour and minute only. */
  predicate IsMinuteFormat(f: Format) {
    f.DateHourMinute? || f.CompactHourMinute?
  }

  /** Date only: the time of day is set to local noon. */
  predicate IsDateOnlyFormat(f: Format) {
    f.DateSeparated? || f.DateCompact? || f.WhatsApp?
  }

  datatype PatternEntry = PatternEntry(format: Format, reliability: real)

  /** The pattern table, in the order it is applied. */
  const Patterns: seq<PatternEntry> := [
    PatternEntry(DateTimeSeparated, 0.95),
    PatternEntry(CompactDateTime, 0.95),
    PatternEntry(ContinuousDateTime, 0.9),
    PatternEntry(ImgPrefixed, 0.95),
    PatternEntry(DscPrefixed, 0.95),
    PatternEntry(PhotoLabelled, 0.9),
    PatternEntry(ScreenshotLabelled, 0.9),
    PatternEntry(DateHourMinute, 0.85),
    PatternEntry(CompactHourMinute, 0.85),
    PatternEntry(VidPrefixed, 0.95),
    PatternEntry(IsoDateTime, 0.95),
    PatternEntry(JapaneseDateTime, 0.9),
    PatternEntry(DateSeparated, 0.7),
    PatternEntry(DateCompact, 0.7),
    PatternEntry(WhatsApp, 0.6),
    PatternEntry(UnixSeconds, 0.8),
    PatternEntry(UnixMillis, 0.8)
  ]

  /** Every table reliability lies in [0.6, 0.95]. */
  predicate TableReliability(r: real) {
    0.6 <= r <= 0.95
  }

  /** One regular-expression match: `groups[k]` is capture group `k + 1`
      read as a decimal number, `text` is `match[0]`. */
  datatype RawMatch = RawMatch(groups: seq<nat>, text: string)

  /** `parseInt(match[k])`: None (NaN) when the group is absent. */
  function Group(m: RawMatch, k: nat): Option<nat>
    requires 1 <= k
  {
    if k - 1 < |m.groups| then Some(m.groups[k - 1]) else None
  }

  /** `parseInt(match[k]) || 0`. */
  function GroupOrZero(m: RawMatch, k: nat): nat
    requires 1 <= k
  {
    Group(m, k).GetOr(0)
  }

  /** The result of `parseMatchedDate`: the instant (None for an invalid
      `Date`) and whether the format carries a time of day. */
  datatype Parsed = Parsed(date: Option<int>, hasTime: bool)

  /** `new Date(year, month - 1, day, hour, minute, second)` from the capture
      groups; a missing year, month or day makes the `Date` invalid. */
  function LocalFromGroups(m: RawMatch, cal: Calendar, hour: nat, minute: nat, second: nat): Option<int> {
    match (Group(m, 1), Group(m, 2), Group(m, 3))
    case (Some(y), Some(mo), Some(d)) => cal.makeLocal(LocalFields(y, (mo as int) - 1, d, hour, minute, second))
    case _ => None
  }

  /** Builds the instant for one match of format `f`. */
  function ParseMatchedDate(m: RawMatch, f: Format, cal: Calendar): (p: Parsed)
    ensures p.hasTime <==> !IsDateOnlyFormat(f)
  {
    if IsSecondFormat(f) then
      Parsed(LocalFromGroups(m, cal, GroupOrZero(m, 4), GroupOrZero(m, 5), GroupOrZero(m, 6)), true)
    else if IsMinuteFormat(f) then
      Parsed(LocalFromGroups(m, cal, GroupOrZero(m, 4), GroupOrZero(m, 5), 0), true)
    else if IsDateOnlyFormat(f) then
      Parsed(LocalFromGroups(m, cal, 12, 0, 0), false)
    else if f.UnixSeconds? then
      Parsed(if Group(m, 1).Some? then FromEpochMs(Group(m, 1).value * 1000) else None, true)
    else
      Parsed(if Group(m, 1).Some? then FromEpochMs(Group(m, 1).value) else None, true)
  }

  /** Date-only formats are placed at local noon: when the calendar reads
      back the fields it was given, the instant shows 12:00:00 on the
      captured year, month and day. */
  lemma DateOnlyMatchIsNoon(m: RawMatch, f: Format, cal: Calendar)
    requires IsDateOnlyFormat(f)
    requires |m.groups| >= 3
    requires ReadsBack(cal, LocalFields(m.groups[0], (m.groups[1] as int) - 1, m.groups[2], 12, 0, 0))
    ensures var p := ParseMatchedDate(m, f, cal);
            && !p.hasTime
            && (p.date.Some? ==>
                  cal.fieldsOf(p.date.value) == LocalFields(m.groups[0], (m.groups[1] as int) - 1, m.groups[2], 12, 0, 0))
  {
  }

  /** Hour-and-minute formats carry the time with second 0. */
  lemma MinuteMatchHasSecondZero(m: RawMatch, f: Format, cal: Calendar)
    requires IsMinuteFormat(f)
    requires |m.groups| >= 5
    requires ReadsBack(cal, LocalFields(m.groups[0], (m.groups[1] as int) - 1, m.groups[2], m.groups[3], m.groups[4], 0))
    ensures var p := ParseMatchedDate(m, f, cal);
            && p.hasTime
            && (p.date.Some? ==>
                  cal.fieldsOf(p.date.value) == LocalFields(m.groups[0], (m.groups[1] as int) - 1, m.groups[2], m.groups[3], m.groups[4], 0))
  {
  }

  /** Full date-time formats carry all six captured fields. */
  lemma SecondMatchKeepsFields(m: RawMatch, f: Format, cal: Calendar)
    requires IsSecondFormat(f)
    requires |m.groups| >= 6
    requires ReadsBack(cal, LocalFields(m.groups[0], (m.groups[1] as int) - 1, m.groups[2], m.groups[3], m.groups[4], m.groups[5]))
    ensures var p := ParseMatchedDate(m, f, cal);
            && p.hasTime
            && (p.date.Some? ==>
                  cal.fieldsOf(p.date.value) == LocalFields(m.groups[0], (m.groups[1] as int) - 1, m.groups[2], m.groups[3], m.groups[4], m.groups[5]))
  {
  }

  /** Epoch formats: ten digits are seconds, thirteen are milliseconds; both
      give a time-bearing instant independent of the local calendar. */
  lemma EpochMatchConversion(m: RawMatch, cal: Calendar)
    requires |m.groups| >= 1
    requires m.groups[0] < 10000000000000
    ensures ParseMatchedDate(m, UnixMillis, cal) == Parsed(Some(m.groups[0]), true)
    ensures m.groups[0] < 10000000000 ==>
              ParseMatchedDate(m, UnixSeconds, cal) == Parsed(Some(m.groups[0] * 1000), true)
  {
  }

  /** What `isValidDate` accepts: a valid `Date` whose local year lies in
      [1990, current year + 1] and which is not more than a week ahead of
      `now`. */
  predicate IsValidDate(date: Option<int>, now: int, cal: Calendar) {
    && date.Some?
    && 1990 <= YearOf(cal, date.value) <= YearOf(cal, now) + 1
    // `date > oneWeekFromNow` is false when that bound is an invalid Date.
    && !(FromEpochMs(now + 7 * DayMs).Some? && date.value > now + 7 * DayMs)
  }

  /** One accepted filename candidate. */
  datatype FilenameResult = FilenameResult(
    date: int, format: Format, reliability: real, hasTime: bool, matchedText: string)

  /** The filename result a match would give, before validation. */
  predicate Plausible(r: FilenameResult, now: int, cal: Calendar) {
    && IsValidDate(Some(r.date), now, cal)
    && TableReliability(r.reliability)
  }

  /** The accepted matches of one pattern, in match order. */
  function AcceptedMatches(p: PatternEntry, ms: seq<RawMatch>, now: int, cal: Calendar): (rs: seq<FilenameResult>)
    requires TableReliability(p.reliability)
    ensures |rs| <= |ms|
    ensures forall i :: 0 <= i < |rs| ==> Plausible(rs[i], now, cal)
    ensures forall i :: 0 <= i < |rs| ==> rs[i].format == p.format && rs[i].reliability == p.reliability
    ensures forall i :: 0 <= i < |rs| ==> rs[i].hasTime == !IsDateOnlyFormat(p.format)
  {
    if |ms| == 0 then []
    else
      var parsed := ParseMatchedDate(ms[0], p.format, cal);
      var rest := AcceptedMatches(p, ms[1..], now, cal);
      if IsValidDate(parsed.date, now, cal) then
        [FilenameResult(parsed.date.value, p.format, p.reliability, parsed.hasTime, ms[0].text)] + rest
      else rest
  }

  /** The accepted matches of every pattern, table order first. */
  function AllAccepted(ps: seq<PatternEntry>, matchAll: Format -> seq<RawMatch>, now: int, cal: Calendar)
    : (rs: seq<FilenameResult>)
    requires forall i :: 0 <= i < |ps| ==> TableReliability(ps[i].reliability)
    ensures forall i :: 0 <= i < |rs| ==> Plausible(rs[i], now, cal)
  {
    if |ps| == 0 then []
    else AcceptedMatches(ps[0], matchAll(ps[0].format), now, cal) + AllAccepted(ps[1..], matchAll, now, cal)
  }

  /** Two results are the same evidence when less than a minute apart. */
  predicate Near(a: FilenameResult, b: FilenameResult) {
    AbsDiff(a.date, b.date) < MinuteMs
  }

  /** `uniqueResults.find(...)`: the index of the first kept result near `c`,
      or `|u|` when there is none. */
  function FindNear(u: seq<FilenameResult>, c: FilenameResult): (k: nat)
    ensures k <= |u|
    ensures forall j :: 0 <= j < k ==> !Near(u[j], c)
    ensures k < |u| ==> Near(u[k], c)
  {
    if |u| == 0 then 0
    else if Near(u[0], c) then 0
    else 1 + FindNear(u[1..], c)
  }

  /** One step of the deduplication: keep `c` as a new entry when nothing
      kept is near it, replace the first near entry when `c` is strictly more
      reliable, and drop `c` otherwise. */
  function DedupStep(u: seq<FilenameResult>, c: FilenameResult): (r: seq<FilenameResult>)
    ensures multiset(r) <= multiset(u) + multiset{c}
    ensures |u| <= |r| <= |u| + 1
  {
    var k := FindNear(u, c);
    if k == |u| then u + [c]
    else if c.reliability > u[k].reliability then u[k := c]
    else u
  }

  /** The kept results after processing `rs` left to right. */
  function Dedup(rs: seq<FilenameResult>): (u: seq<FilenameResult>)
    ensures multiset(u) <= multiset(rs)
    ensures |u| <= |rs|
    ensures |rs| > 0 ==> |u| > 0
  {
    if |rs| == 0 then []
    else
      var init := rs[..|rs| - 1];
      assert rs == init + [rs[|rs| - 1]];
      DedupStep(Dedup(init), rs[|rs| - 1])
  }

  /** The largest reliability in a non-empty sequence of results. */
  function MaxReliability(rs: seq<FilenameResult>): (m: real)
    requires |rs| > 0
    ensures forall i :: 0 <= i < |rs| ==> rs[i].reliability <= m
    ensures exists i :: 0 <= i < |rs| && rs[i].reliability == m
  {
    if |rs| == 1 then rs[0].reliability
    else
      var m := MaxReliability(rs[..|rs| - 1]);
      var last := rs[|rs| - 1].reliability;
      assert forall i :: 0 <= i < |rs| - 1 ==> rs[i] == rs[..|rs| - 1][i];
      if last > m then last else m
  }

  /** A bound that some element attains is the maximum. */
  lemma MaxIsAttainedBound(rs: seq<FilenameResult>, t: real, i: nat)
    requires i < |rs| && rs[i].reliability == t
    requires forall j :: 0 <= j < |rs| ==> rs[j].reliability <= t
    ensures MaxReliability(rs) == t
  {
    var w :| 0 <= w < |rs| && rs[w].reliability == MaxReliability(rs);
    assert rs[w].reliability <= t;
    assert rs[i].reliability <= MaxReliability(rs);
  }

  lemma MaxSnoc(u: seq<FilenameResult>, c: FilenameResult)
    requires |u| > 0
    ensures MaxReliability(u + [c]) == if c.reliability > MaxReliability(u) then c.reliability else MaxReliability(u)
  {
    assert (u + [c])[..|u|] == u;
  }

  /** Replacing an entry by a more reliable one raises the maximum to at
      most the newcomer's reliability. */
  lemma MaxUpdate(u: seq<FilenameResult>, k: nat, c: FilenameResult)
    requires k < |u| && c.reliability > u[k].reliability
    ensures MaxReliability(u[k := c]) == if c.reliability > MaxReliability(u) then c.reliability else MaxReliability(u)
  {
    var r := u[k := c];
    var m := MaxReliability(u);
    var target := if c.reliability > m then c.reliability else m;
    var i :| 0 <= i < |u| && u[i].reliability == m;
    forall j | 0 <= j < |r|
      ensures r[j].reliability <= target
    {
      if j != k {
        assert r[j] == u[j];
      }
    }
    if c.reliability > m {
      MaxIsAttainedBound(r, target, k);
    } else {
      // the replaced entry was below c, so it did not hold the maximum
      assert i != k;
      assert r[i] == u[i];
      MaxIsAttainedBound(r, target, i);
    }
  }

  /** A deduplication step keeps the largest reliability seen so far. */
  lemma DedupStepKeepsMax(u: seq<FilenameResult>, c: FilenameResult)
    requires |u| > 0
    ensures MaxReliability(DedupStep(u, c)) == if c.reliability > MaxReliability(u) then c.reliability else MaxReliability(u)
  {
    var k := FindNear(u, c);
    if k == |u| {
      MaxSnoc(u, c);
    } else if c.reliability > u[k].reliability {
      MaxUpdate(u, k, c);
    } else {
      assert u[k].reliability >= c.reliability;
    }
  }

  /** Deduplication keeps the largest reliability of its input. */
  lemma {:induction false} DedupKeepsMax(rs: seq<FilenameResult>)
    requires |rs| > 0
    ensures MaxReliability(Dedup(rs)) == MaxReliability(rs)
  {
    var init := rs[..|rs| - 1];
    if |init| == 0 {
      assert Dedup(init) == [];
      assert Dedup(rs) == [rs[0]];
    } else {
      DedupKeepsMax(init);
      DedupStepKeepsMax(Dedup(init), rs[|rs| - 1]);
    }
  }

  function ReliabilityRank(r: FilenameResult): StableSort.Rank {
    StableSort.Rank(0, r.reliability)
  }

  /** Sorting by `ReliabilityRank` orders by non-increasing reliability. */
  lemma RankSortedMeansReliabilitySorted(out: seq<FilenameResult>)
    requires StableSort.SortedBy(out, ReliabilityRank)
    ensures forall i, j :: 0 <= i < j < |out| ==> out[i].reliability >= out[j].reliability
  {
    forall i, j | 0 <= i < j < |out|
      ensures out[i].reliability >= out[j].reliability
    {
      assert !StableSort.Before(ReliabilityRank(out[j]), ReliabilityRank(out[i]));
    }
  }

  /** A reliability-sorted permutation starts with the largest reliability. */
  lemma SortedHeadIsMax(out: seq<FilenameResult>, unique: seq<FilenameResult>)
    requires |unique| > 0
    requires multiset(out) == multiset(unique)
    requires forall i, j :: 0 <= i < j < |out| ==> out[i].reliability >= out[j].reliability
    ensures |out| > 0 && out[0].reliability == MaxReliability(unique)
  {
    var m := MaxReliability(unique);
    var i :| 0 <= i < |unique| && unique[i].reliability == m;
    assert unique[i] in multiset(unique);
    assert unique[i] in out;
    var j :| 0 <= j < |out| && out[j] == unique[i];
    assert out[0] in multiset(out);
    assert out[0] in unique;
    var k :| 0 <= k < |unique| && unique[k] == out[0];
  }

  /** The sorted deduplicated results lead with the largest input
      reliability. */
  lemma SortedDedupLeadsWithMax(accepted: seq<FilenameResult>)
    requires |accepted| > 0
    ensures var out := StableSort.Sort(Dedup(accepted), ReliabilityRank);
            |out| > 0 && out[0].reliability == MaxReliability(accepted)
  {
    var unique := Dedup(accepted);
    var out := StableSort.Sort(unique, ReliabilityRank);
    RankSortedMeansReliabilitySorted(out);
    DedupKeepsMax(accepted);
    SortedHeadIsMax(out, unique);
  }

  /** `extractAllDatesFromFilename`: every accepted match, deduplicated
      first-fit and sorted by non-increasing reliability. */
  function ExtractAllDatesFromFilename(matchAll: Format -> seq<RawMatch>, now: int, cal: Calendar)
    : (out: seq<FilenameResult>)
    ensures forall i :: 0 <= i < |out| ==> Plausible(out[i], now, cal)
    ensures multiset(out) <= multiset(AllAccepted(Patterns, matchAll, now, cal))
    ensures |out| <= |AllAccepted(Patterns, matchAll, now, cal)|
    ensures forall i, j :: 0 <= i < j < |out| ==> out[i].reliability >= out[j].reliability
    ensures |AllAccepted(Patterns, matchAll, now, cal)| > 0 ==>
              |out| > 0 && out[0].reliability == MaxReliability(AllAccepted(Patterns, matchAll, now, cal))
  {
    var accepted := AllAccepted(Patterns, matchAll, now, cal);
    var out := StableSort.Sort(Dedup(accepted), ReliabilityRank);
    RankSortedMeansReliabilitySorted(out);
    SubMultisetKeepsPlausible(out, accepted, now, cal);
    if |accepted| > 0 then SortedDedupLeadsWithMax(accepted); out else out
  }

  lemma SubMultisetKeepsPlausible(out: seq<FilenameResult>, accepted: seq<FilenameResult>, now: int, cal: Calendar)
    requires multiset(out) <= multiset(accepted)
    requires forall i :: 0 <= i < |accepted| ==> Plausible(accepted[i], now, cal)
    ensures forall i :: 0 <= i < |out| ==> Plausible(out[i], now, cal)
  {
    forall i | 0 <= i < |out|
      ensures Plausible(out[i], now, cal)
    {
      assert out[i] in multiset(out);
      assert out[i] in accepted;
    }
  }

  /** Two candidates less than a minute apart collapse to the more reliable
      one; the earlier one stays on a tie. */
  lemma NearPairCollapses(a: FilenameResult, b: FilenameResult)
    requires Near(a, b)
    ensures Dedup([a, b]) == if b.reliability > a.reliability then [b] else [a]
  {
    assert [a, b][..1] == [a];
    assert [a][..0] == [];
  }

  /** Two candidates a minute or more apart are both kept. */
  lemma FarPairKept(a: FilenameResult, b: FilenameResult)
    requires !Near(a, b)
    ensures Dedup([a, b]) == [a, b]
  {
    assert [a, b][..1] == [a];
    assert [a][..0] == [];
  }

  /** A kept result that `c` is not near survives the step. */
  lemma DedupStepKeeps(u: seq<FilenameResult>, c: FilenameResult, x: FilenameResult)
    requires x in u && !Near(x, c)
    ensures x in DedupStep(u, c)
  {
    var p :| 0 <= p < |u| && u[p] == x;
    var k := FindNear(u, c);
    if k < |u| && c.reliability > u[k].reliability {
      assert p != k;
      assert u[k := c][p] == x;
    }
  }

  /** A candidate near nothing kept so far is added. */
  lemma DedupStepAdds(u: seq<FilenameResult>, c: FilenameResult)
    requires forall j :: 0 <= j < |u| ==> !Near(u[j], c)
    ensures c in DedupStep(u, c)
  {
    assert FindNear(u, c) == |u|;
  }

  /** Every kept result is one of the candidates. */
  lemma KeptComesFromInput(rs: seq<FilenameResult>, y: FilenameResult) returns (m: nat)
    requires y in Dedup(rs)
    ensures m < |rs| && rs[m] == y
  {
    assert y in multiset(Dedup(rs));
    assert y in multiset(rs);
    m :| 0 <= m < |rs| && rs[m] == y;
  }

  /** A result at least a minute away from every other candidate is kept,
      whatever the order and the reliabilities. */
  lemma {:induction false} IsolatedResultKept(rs: seq<FilenameResult>, i: nat)
    requires i < |rs|
    requires forall j :: 0 <= j < |rs| && j != i ==> !Near(rs[j], rs[i])
    ensures rs[i] in Dedup(rs)
  {
    var n := |rs| - 1;
    var init := rs[..n];
    assert rs == init + [rs[n]];
    var u := Dedup(init);
    assert Dedup(rs) == DedupStep(u, rs[n]);
    if i == n {
      forall j | 0 <= j < |u|
        ensures !Near(u[j], rs[n])
      {
        var m := KeptComesFromInput(init, u[j]);
        assert rs[m] == u[j];
      }
      DedupStepAdds(u, rs[n]);
    } else {
      assert forall j :: 0 <= j < |init| ==> init[j] == rs[j];
      IsolatedResultKept(init, i);
      assert !Near(rs[i], rs[n]) by { assert !Near(rs[n], rs[i]); }
      DedupStepKeeps(u, rs[n], rs[i]);
    }
  }
}
