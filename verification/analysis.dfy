/** Stage 2 of the date-time estimator, second step: checking every pair of
    sources for disagreement (`analyzeDateTimeSources` and
    `formatTimeDifference` in js/datetime-estimator.js). */
module DateTimeAnalysis {
  import opened Text
  import opened LocalClock
  import opened DateTimeSources

  // ---------------------------------------------------------- time difference

  /** A duration shown by its two largest units (or one, below an hour). */
  datatype Span =
    | DaysHours(days: nat, hours: nat)
    | HoursMinutes(hours: nat, minutes: nat)
    | Minutes(minutes: nat)
    | Seconds(seconds: nat)

  /** The units `formatTimeDifference` shows for a duration: each shown
      figure is the duration truncated to that unit. */
  function SpanOf(ms: nat): (sp: Span)
    ensures sp.DaysHours? ==>
      && ms >= DayMs && 1 <= sp.days && sp.hours < 24
      && sp.days * DayMs + sp.hours * HourMs <= ms < sp.days * DayMs + (sp.hours + 1) * HourMs
    ensures sp.HoursMinutes? ==>
      && HourMs <= ms < DayMs && 1 <= sp.hours < 24 && sp.minutes < 60
      && sp.hours * HourMs + sp.minutes * MinuteMs <= ms < sp.hours * HourMs + (sp.minutes + 1) * MinuteMs
    ensures sp.Minutes? ==>
      && MinuteMs <= ms < HourMs && 1 <= sp.minutes < 60
      && sp.minutes * MinuteMs <= ms < (sp.minutes + 1) * MinuteMs
    ensures sp.Seconds? ==>
      && ms < MinuteMs && sp.seconds < 60
      && sp.seconds * SecondMs <= ms < (sp.seconds + 1) * SecondMs
  {
    var seconds := ms / 1000;
    var minutes := seconds / 60;
    var hours := minutes / 60;
    var days := hours / 24;
    assert ms == 1000 * seconds + ms % 1000;
    assert seconds == 60 * minutes + seconds % 60;
    assert minutes == 60 * hours + minutes % 60;
    assert hours == 24 * days + hours % 24;
    if days > 0 then DaysHours(days, hours % 24)
    else if hours > 0 then HoursMinutes(hours, minutes % 60)
    else if minutes > 0 then Minutes(minutes)
    else Seconds(seconds)
  }

  function RenderSpan(sp: Span): string {
    match sp
    case DaysHours(d, h) => NatToString(d) + "日" + NatToString(h) + "時間"
    case HoursMinutes(h, m) => NatToString(h) + "時間" + NatToString(m) + "分"
    case Minutes(m) => NatToString(m) + "分"
    case Seconds(s) => NatToString(s) + "秒"
  }

  /** `formatTimeDifference`. */
  function FormatTimeDifference(ms: nat): string {
    RenderSpan(SpanOf(ms))
  }

  /** Ten days exactly reads "10日0時間". */
  lemma TenDaysText()
    ensures FormatTimeDifference(864000000) == "10日0時間"
  {
    assert SpanOf(864000000) == DaysHours(10, 0);
    assert NatToString(10) == "10" by {
      assert NatToString(1) == "1";
      assert NatToString(0) == "0";
    }
  }

  // ---------------------------------------------------------------- conflicts

  /** `sources.some(s => s.hasTime)`. */
  predicate HasTimeInfo(s: seq<Source>) {
    exists k :: 0 <= k < |s| && s[k].hasTime
  }

  /** The tolerance the code applies to a pair: the 1-hour bound only when
      both are time-bearing and some source is. */
  function PairTolerance(a: Source, b: Source, hasTimeInfo: bool): nat {
    if a.hasTime && b.hasTime then (if hasTimeInfo then HourMs else DayMs) else DayMs
  }

  predicate InConflict(a: Source, b: Source, hasTimeInfo: bool) {
    AbsDiff(a.date, b.date) > PairTolerance(a, b, hasTimeInfo)
  }

  /** Reference: a pair disagrees when it is more than an hour apart and both
      are time-bearing, or more than a day apart otherwise. */
  predicate Disagree(a: Source, b: Source) {
    AbsDiff(a.date, b.date) > (if a.hasTime && b.hasTime then HourMs else DayMs)
  }

  /** The number of unordered pairs among `m` items. */
  function Pairs(m: int): (t: nat)
    ensures m >= 1 ==> 2 * t == m * (m - 1)
  {
    if m <= 1 then 0 else (m - 1) + Pairs(m - 1)
  }

  /** `p` comes before `q` in the loop order: by first index, then second. */
  predicate LexLess(p: (nat, nat), q: (nat, nat)) {
    p.0 < q.0 || (p.0 == q.0 && p.1 < q.1)
  }

  /** The conflicting index pairs from `(i, j)` on, in the loop order of the
      code: `i` ascending, then `j` ascending. */
  function ConflictPairsFrom(s: seq<Source>, hasTimeInfo: bool, i: nat, j: nat): (ps: seq<(nat, nat)>)
    requires i < j
    ensures forall k :: 0 <= k < |ps| ==>
      && ps[k].0 < ps[k].1 < |s|
      && (ps[k].0 > i || (ps[k].0 == i && ps[k].1 >= j))
      && InConflict(s[ps[k].0], s[ps[k].1], hasTimeInfo)
    ensures forall k, l :: 0 <= k < l < |ps| ==> LexLess(ps[k], ps[l])
    ensures |ps| <= (if j <= |s| then |s| - j else 0) + Pairs(|s| - i - 1)
    decreases |s| - i, |s| - j
  {
    if i >= |s| then []
    else if j >= |s| then ConflictPairsFrom(s, hasTimeInfo, i + 1, i + 2)
    else
      var rest := ConflictPairsFrom(s, hasTimeInfo, i, j + 1);
      if InConflict(s[i], s[j], hasTimeInfo) then [(i, j)] + rest else rest
  }

  /** Every conflicting pair from `(i, j)` on is listed. */
  lemma {:induction false} ConflictPairsFromComplete(s: seq<Source>, hasTimeInfo: bool, i: nat, j: nat, a: nat, b: nat)
    requires i < j
    requires a < b < |s| && (a > i || (a == i && b >= j))
    requires InConflict(s[a], s[b], hasTimeInfo)
    ensures (a, b) in ConflictPairsFrom(s, hasTimeInfo, i, j)
    decreases |s| - i, |s| - j
  {
    if j >= |s| {
      ConflictPairsFromComplete(s, hasTimeInfo, i + 1, i + 2, a, b);
    } else if a == i && b == j {
    } else {
      ConflictPairsFromComplete(s, hasTimeInfo, i, j + 1, a, b);
    }
  }

  datatype Consistency = High | Medium | Low | NoSources

  datatype Conflict = Conflict(source1: Source, source2: Source, difference: nat, differenceFormatted: string)

  datatype Analysis = Analysis(
    consistency: Consistency, conflicts: seq<Conflict>, agreement: real, hasTimeInfo: bool)

  function MakeConflict(a: Source, b: Source): Conflict {
    Conflict(a, b, AbsDiff(a.date, b.date), FormatTimeDifference(AbsDiff(a.date, b.date)))
  }

  /** The conflicting index pairs of the whole list. */
  function ConflictPairs(s: seq<Source>): (ps: seq<(nat, nat)>)
    ensures forall k :: 0 <= k < |ps| ==> ps[k].0 < ps[k].1 < |s|
    ensures forall k, l :: 0 <= k < l < |ps| ==> LexLess(ps[k], ps[l])
    ensures |ps| <= Pairs(|s|)
  {
    ConflictPairsFrom(s, HasTimeInfo(s), 0, 1)
  }

  /** `(n * (n - 1)) / 2`, the number of comparisons the code makes. */
  function TotalComparisons(n: nat): (t: nat)
    ensures n <= 1 <==> t == 0
  {
    Pairs(n)
  }

  /** The count is the code's `(n * (n - 1)) / 2`. */
  lemma TotalComparisonsFormula(n: nat)
    ensures TotalComparisons(n) == n * (n - 1) / 2
  {
    if n >= 1 {
      assert 2 * Pairs(n) == n * (n - 1);
    }
  }

  /** The agreement ratio: the share of comparisons that did not conflict,
      1 when nothing was compared. */
  function Agreement(n: nat, c: nat): (r: real)
    requires c <= TotalComparisons(n)
    ensures 0.0 <= r <= 1.0
    ensures TotalComparisons(n) == 0 ==> r == 1.0
    ensures TotalComparisons(n) > 0 ==> r * (TotalComparisons(n) as real) == (TotalComparisons(n) - c) as real
    ensures c == 0 <==> r == 1.0
  {
    var total := TotalComparisons(n);
    if total > 0 then
      var r := ((total - c) as real) / (total as real);
      RatioBounds((total - c) as real, total as real);
      r
    else 1.0
  }

  /** A share of a positive whole lies in [0, 1] and is 1 only for the whole. */
  lemma RatioBounds(part: real, whole: real)
    requires 0.0 <= part <= whole && whole > 0.0
    ensures (part / whole) * whole == part
    ensures 0.0 <= part / whole <= 1.0
    ensures part / whole == 1.0 <==> part == whole
  {
    var r := part / whole;
    assert r * whole == part;
    assert (1.0 - r) * whole == whole - part;
  }

  /** The consistency label of a non-empty source list. */
  function Label(conflicts: nat, agreement: real): (c: Consistency)
    ensures c == High <==> conflicts == 0
    ensures c == Medium <==> conflicts > 0 && agreement >= 0.7
    ensures c == Low <==> conflicts > 0 && agreement < 0.7
  {
    if conflicts == 0 then High
    else if agreement >= 0.7 then Medium
    else Low
  }

  /** The conflict records, one per conflicting pair, in loop order. */
  function ConflictRecords(s: seq<Source>): (cs: seq<Conflict>)
    ensures |cs| == |ConflictPairs(s)|
    ensures forall k :: 0 <= k < |cs| ==>
              cs[k] == MakeConflict(s[ConflictPairs(s)[k].0], s[ConflictPairs(s)[k].1])
  {
    var ps := ConflictPairs(s);
    seq(|ps|, k requires 0 <= k < |ps| => MakeConflict(s[ps[k].0], s[ps[k].1]))
  }

  /** `analyzeDateTimeSources`. */
  function AnalyzeDateTimeSources(s: seq<Source>): (a: Analysis)
    ensures |s| == 0 ==> a == Analysis(NoSources, [], 0.0, false)
    ensures |s| > 0 ==> (a.hasTimeInfo <==> HasTimeInfo(s))
    ensures |a.conflicts| <= TotalComparisons(|s|)
    ensures |s| > 0 ==> |a.conflicts| == |ConflictPairs(s)|
    ensures |s| > 0 ==> forall k :: 0 <= k < |a.conflicts| ==>
              a.conflicts[k] == MakeConflict(s[ConflictPairs(s)[k].0], s[ConflictPairs(s)[k].1])
    ensures 0.0 <= a.agreement <= 1.0
    ensures |s| == 1 ==> a.agreement == 1.0
    ensures |s| > 0 ==> a.agreement == Agreement(|s|, |a.conflicts|)
    ensures |s| > 0 ==> (a.consistency == High <==> |a.conflicts| == 0)
    ensures |s| > 0 ==> (a.consistency == Medium <==> |a.conflicts| > 0 && a.agreement >= 0.7)
    ensures |s| > 0 ==> (a.consistency == Low <==> |a.conflicts| > 0 && a.agreement < 0.7)
  {
    if |s| == 0 then Analysis(NoSources, [], 0.0, false)
    else
      var conflicts := ConflictRecords(s);
      var agreement := Agreement(|s|, |conflicts|);
      Analysis(Label(|conflicts|, agreement), conflicts, agreement, HasTimeInfo(s))
  }

  /** The global `hasTimeInfo` flag never changes a pair's verdict: a pair
      is in conflict exactly when it disagrees by its own tolerance. */
  lemma ToleranceIsPerPair(s: seq<Source>, a: nat, b: nat)
    requires a < b < |s|
    ensures InConflict(s[a], s[b], HasTimeInfo(s)) <==> Disagree(s[a], s[b])
  {
    if s[a].hasTime && s[b].hasTime {
      assert HasTimeInfo(s);
    }
  }

  /** The conflicts are exactly the disagreeing pairs. */
  lemma ConflictPairsExact(s: seq<Source>)
    ensures forall k :: 0 <= k < |ConflictPairs(s)| ==>
              Disagree(s[ConflictPairs(s)[k].0], s[ConflictPairs(s)[k].1])
    ensures forall a, b :: 0 <= a < b < |s| && Disagree(s[a], s[b]) ==> (a, b) in ConflictPairs(s)
  {
    var ps := ConflictPairs(s);
    forall k | 0 <= k < |ps|
      ensures Disagree(s[ps[k].0], s[ps[k].1])
    {
      ToleranceIsPerPair(s, ps[k].0, ps[k].1);
    }
    forall a, b | 0 <= a < b < |s| && Disagree(s[a], s[b])
      ensures (a, b) in ps
    {
      ToleranceIsPerPair(s, a, b);
      ConflictPairsFromComplete(s, HasTimeInfo(s), 0, 1, a, b);
    }
  }

  /** The disagreeing index pairs, as a set. */
  function DisagreeingPairs(s: seq<Source>): set<(nat, nat)> {
    set a: nat, b: nat | a < b < |s| && Disagree(s[a], s[b]) :: (a, b)
  }

  /** A strictly increasing list has as many elements as its set. */
  lemma {:induction false} IncreasingCard(ps: seq<(nat, nat)>)
    requires forall k, l :: 0 <= k < l < |ps| ==> LexLess(ps[k], ps[l])
    ensures |set k | 0 <= k < |ps| :: ps[k]| == |ps|
  {
    if |ps| > 0 {
      var rest := ps[1..];
      IncreasingCard(rest);
      var all := set k | 0 <= k < |ps| :: ps[k];
      var tail := set k | 0 <= k < |rest| :: rest[k];
      assert all == {ps[0]} + tail by {
        forall x | x in all ensures x in {ps[0]} + tail {
          var k :| 0 <= k < |ps| && ps[k] == x;
          if k > 0 { assert rest[k - 1] == x; }
        }
        forall x | x in tail ensures x in all {
          var k :| 0 <= k < |rest| && rest[k] == x;
          assert ps[k + 1] == x;
        }
      }
      forall k | 0 <= k < |rest| ensures rest[k] != ps[0] {
        assert LexLess(ps[0], ps[k + 1]);
      }
    }
  }

  /** The number of recorded conflicts, which the agreement ratio divides
      by, is the number of disagreeing pairs. */
  lemma ConflictCountIsDisagreeingPairs(s: seq<Source>)
    ensures |AnalyzeDateTimeSources(s).conflicts| == |DisagreeingPairs(s)|
  {
    var ps := ConflictPairs(s);
    ConflictPairsExact(s);
    IncreasingCard(ps);
    var listed := set k | 0 <= k < |ps| :: ps[k];
    assert listed == DisagreeingPairs(s) by {
      forall x | x in listed ensures x in DisagreeingPairs(s) {
        var k :| 0 <= k < |ps| && ps[k] == x;
        assert Disagree(s[ps[k].0], s[ps[k].1]);
      }
      forall x | x in DisagreeingPairs(s) ensures x in listed {
        var a: nat, b: nat :| a < b < |s| && Disagree(s[a], s[b]) && x == (a, b);
        assert (a, b) in ps;
        var k :| 0 <= k < |ps| && ps[k] == (a, b);
      }
    }
  }
}
