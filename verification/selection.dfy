/** Stage 2 of the date-time estimator, third step: choosing the estimate
    and scoring it (`selectBestDateTime`, `findConsensusDate`,
    `calculateConfidence` in js/datetime-estimator.js). */
module DateTimeSelection {
  import opened Wrappers
  import opened LocalClock
  import opened DateTimeSources
  import opened DateTimeAnalysis

  // ---------------------------------------------------------------- consensus

  /** The consensus tolerance: it follows the list-wide `hasTimeInfo` flag,
      not the pair. */
  function ConsensusTolerance(hasTimeInfo: bool): nat {
    if hasTimeInfo then HourMs else DayMs
  }

  predicate NonEmptyGroups(gs: seq<seq<Source>>) {
    forall k :: 0 <= k < |gs| ==> |gs[k]| > 0
  }

  /** Every member of a group lies within the tolerance of its first member. */
  predicate CloseToHead(gs: seq<seq<Source>>, tol: nat)
    requires NonEmptyGroups(gs)
  {
    forall k, m :: 0 <= k < |gs| && 0 <= m < |gs[k]| ==> AbsDiff(gs[k][0].date, gs[k][m].date) <= tol
  }

  /** The groups' members in group order. */
  function Flatten(gs: seq<seq<Source>>): seq<Source> {
    if |gs| == 0 then [] else gs[0] + Flatten(gs[1..])
  }

  /** The first group whose first member is within the tolerance of `x`, or
      `|gs|` when there is none. */
  function FirstFit(gs: seq<seq<Source>>, x: Source, tol: nat): (k: nat)
    requires NonEmptyGroups(gs)
    ensures k <= |gs|
    ensures forall j :: 0 <= j < k ==> AbsDiff(gs[j][0].date, x.date) > tol
    ensures k < |gs| ==> AbsDiff(gs[k][0].date, x.date) <= tol
  {
    if |gs| == 0 then 0
    else if AbsDiff(gs[0][0].date, x.date) <= tol then 0
    else 1 + FirstFit(gs[1..], x, tol)
  }

  /** Adds `x` to the first group it fits, or opens a new group. */
  function Place(gs: seq<seq<Source>>, x: Source, tol: nat): seq<seq<Source>>
    requires NonEmptyGroups(gs)
  {
    var k := FirstFit(gs, x, tol);
    if k == |gs| then gs + [[x]] else gs[k := gs[k] + [x]]
  }

  lemma {:induction false} FlattenAppend(gs: seq<seq<Source>>, g: seq<Source>)
    ensures Flatten(gs + [g]) == Flatten(gs) + g
  {
    if |gs| == 0 {
      assert [] + [g] == [g];
      assert Flatten([g]) == g + Flatten([]);
    } else {
      assert (gs + [g])[1..] == gs[1..] + [g];
      FlattenAppend(gs[1..], g);
    }
  }

  lemma {:induction false} FlattenExtend(gs: seq<seq<Source>>, k: nat, x: Source)
    requires k < |gs|
    ensures multiset(Flatten(gs[k := gs[k] + [x]])) == multiset(Flatten(gs)) + multiset{x}
  {
    var hs := gs[k := gs[k] + [x]];
    if k == 0 {
      assert hs[1..] == gs[1..];
      assert Flatten(hs) == gs[0] + [x] + Flatten(gs[1..]);
    } else {
      assert hs[1..] == gs[1..][k - 1 := gs[1..][k - 1] + [x]];
      FlattenExtend(gs[1..], k - 1, x);
      assert Flatten(hs) == gs[0] + Flatten(hs[1..]);
      assert Flatten(gs) == gs[0] + Flatten(gs[1..]);
      assert multiset(Flatten(hs)) == multiset(gs[0]) + multiset(Flatten(hs[1..]));
    }
  }

  /** `findConsensusDate`'s grouping: each source joins the first group
      whose first member is within the tolerance, else opens a new group. */
  function Groups(s: seq<Source>, tol: nat): (gs: seq<seq<Source>>)
    ensures NonEmptyGroups(gs)
    ensures |gs| <= |s|
  {
    if |s| == 0 then []
    else
      var prev := Groups(s[..|s| - 1], tol);
      var x := s[|s| - 1];
      var k := FirstFit(prev, x, tol);
      if k == |prev| then prev + [[x]] else prev[k := prev[k] + [x]]
  }

  /** Grouping neither loses nor invents sources. */
  lemma {:induction false} GroupsPermutation(s: seq<Source>, tol: nat)
    ensures multiset(Flatten(Groups(s, tol))) == multiset(s)
  {
    if |s| > 0 {
      var init := s[..|s| - 1];
      var prev := Groups(init, tol);
      var x := s[|s| - 1];
      assert s == init + [x];
      GroupsPermutation(init, tol);
      var k := FirstFit(prev, x, tol);
      if k == |prev| {
        FlattenAppend(prev, [x]);
      } else {
        FlattenExtend(prev, k, x);
      }
    }
  }

  /** Every group's members lie within the tolerance of its first member. */
  lemma {:induction false} GroupsCloseToHead(s: seq<Source>, tol: nat)
    ensures CloseToHead(Groups(s, tol), tol)
  {
    if |s| > 0 {
      var init := s[..|s| - 1];
      var prev := Groups(init, tol);
      var x := s[|s| - 1];
      GroupsCloseToHead(init, tol);
      var k := FirstFit(prev, x, tol);
      var gs: seq<seq<Source>> := Groups(s, tol);
      forall j: int, m: int | 0 <= j < |gs| && 0 <= m < |gs[j]|
        ensures AbsDiff(gs[j][0].date, gs[j][m].date) <= tol
      {
        if j < |prev| && m < |prev[j]| {
          assert gs[j][0] == prev[j][0] && gs[j][m] == prev[j][m];
        }
      }
    }
  }

  /** `groups.reduce((p, c) => p.length > c.length ? p : c, [])`: the last
      of the largest groups. */
  function LargestGroup(gs: seq<seq<Source>>): (g: seq<Source>)
    ensures forall k :: 0 <= k < |gs| ==> |gs[k]| <= |g|
    ensures |gs| == 0 ==> g == []
    ensures |gs| > 0 ==> exists k :: 0 <= k < |gs| && gs[k] == g && forall j :: k < j < |gs| ==> |gs[j]| < |g|
  {
    if |gs| == 0 then []
    else
      var prev := LargestGroup(gs[..|gs| - 1]);
      var cur := gs[|gs| - 1];
      assert forall k :: 0 <= k < |gs| - 1 ==> gs[k] == gs[..|gs| - 1][k];
      if |prev| > |cur| then prev else cur
  }

  /** `group.reduce((p, c) => p.reliability > c.reliability ? p : c)`: the
      last of the most reliable members. */
  function MostReliable(g: seq<Source>): (x: Source)
    requires |g| > 0
    ensures forall k :: 0 <= k < |g| ==> g[k].reliability <= x.reliability
    ensures exists k :: 0 <= k < |g| && g[k] == x && forall j :: k < j < |g| ==> g[j].reliability < x.reliability
  {
    if |g| == 1 then g[0]
    else
      var prev := MostReliable(g[..|g| - 1]);
      var cur := g[|g| - 1];
      assert forall k :: 0 <= k < |g| - 1 ==> g[k] == g[..|g| - 1][k];
      if prev.reliability > cur.reliability then prev else cur
  }

  lemma {:induction false} InGroupInFlatten(gs: seq<seq<Source>>, k: nat, x: Source)
    requires k < |gs| && x in gs[k]
    ensures x in Flatten(gs)
  {
    if k > 0 {
      InGroupInFlatten(gs[1..], k - 1, x);
    }
  }

  /** `d` is the date of the last most reliable member of the last largest
      group, and that group has two members or more. */
  predicate ConsensusPick(gs: seq<seq<Source>>, d: int) {
    exists k, m :: && 0 <= k < |gs| && 0 <= m < |gs[k]| && |gs[k]| >= 2
                   && (forall j :: 0 <= j < |gs| ==> |gs[j]| <= |gs[k]|)
                   && (forall j :: k < j < |gs| ==> |gs[j]| < |gs[k]|)
                   && (forall i :: 0 <= i < |gs[k]| ==> gs[k][i].reliability <= gs[k][m].reliability)
                   && (forall i :: m < i < |gs[k]| ==> gs[k][i].reliability < gs[k][m].reliability)
                   && gs[k][m].date == d
  }

  lemma LargestMostReliablePicked(gs: seq<seq<Source>>)
    requires |LargestGroup(gs)| >= 2
    ensures ConsensusPick(gs, MostReliable(LargestGroup(gs)).date)
  {
    var big := LargestGroup(gs);
    var x := MostReliable(big);
    var k :| 0 <= k < |gs| && gs[k] == big && forall j :: k < j < |gs| ==> |gs[j]| < |big|;
    var m :| 0 <= m < |big| && big[m] == x && forall j :: m < j < |big| ==> big[j].reliability < x.reliability;
    PickAt(gs, k, m);
  }

  lemma PickAt(gs: seq<seq<Source>>, k: nat, m: nat)
    requires k < |gs| && m < |gs[k]| && |gs[k]| >= 2
    requires forall j :: 0 <= j < |gs| ==> |gs[j]| <= |gs[k]|
    requires forall j :: k < j < |gs| ==> |gs[j]| < |gs[k]|
    requires forall i :: 0 <= i < |gs[k]| ==> gs[k][i].reliability <= gs[k][m].reliability
    requires forall i :: m < i < |gs[k]| ==> gs[k][i].reliability < gs[k][m].reliability
    ensures ConsensusPick(gs, gs[k][m].date)
  {
  }

  /** `findConsensusDate`: the date of the most reliable member of the
      largest group, when that group has two members or more. */
  function FindConsensusDate(s: seq<Source>, hasTimeInfo: bool): (r: Option<int>)
    ensures r.Some? ==> exists k :: 0 <= k < |s| && s[k].date == r.value
    ensures r.Some? ==> |s| >= 2
    ensures r.Some? ==> ConsensusPick(Groups(s, ConsensusTolerance(hasTimeInfo)), r.value)
    ensures var gs := Groups(s, ConsensusTolerance(hasTimeInfo));
      r.None? <==> forall j :: 0 <= j < |gs| ==> |gs[j]| < 2
  {
    var gs := Groups(s, ConsensusTolerance(hasTimeInfo));
    var big := LargestGroup(gs);
    if |big| >= 2 then
      var x := MostReliable(big);
      GroupsPermutation(s, ConsensusTolerance(hasTimeInfo));
      ConsensusMember(gs, big, x, s);
      LargestMostReliablePicked(gs);
      Some(x.date)
    else None
  }

  lemma ConsensusMember(gs: seq<seq<Source>>, big: seq<Source>, x: Source, s: seq<Source>)
    requires multiset(Flatten(gs)) == multiset(s)
    requires big in gs && x in big
    ensures x in s
    ensures |Flatten(gs)| >= |big|
  {
    var k :| 0 <= k < |gs| && gs[k] == big;
    InGroupInFlatten(gs, k, x);
    assert x in multiset(Flatten(gs));
    FlattenAtLeastGroup(gs, k);
  }

  lemma {:induction false} FlattenAtLeastGroup(gs: seq<seq<Source>>, k: nat)
    requires k < |gs|
    ensures |Flatten(gs)| >= |gs[k]|
  {
    if k > 0 {
      FlattenAtLeastGroup(gs[1..], k - 1);
    }
  }

  /** No two sources lie within the tolerance of each other. */
  predicate FarApart(s: seq<Source>, tol: nat) {
    forall i, j :: 0 <= i < j < |s| ==> AbsDiff(s[i].date, s[j].date) > tol
  }

  /** Sources pairwise farther apart than the tolerance each form a group of
      their own, in order. */
  lemma {:induction false} FarApartSingletons(s: seq<Source>, tol: nat)
    requires FarApart(s, tol)
    ensures |Groups(s, tol)| == |s|
    ensures forall k :: 0 <= k < |s| ==> Groups(s, tol)[k] == [s[k]]
  {
    if |s| > 0 {
      var init := s[..|s| - 1];
      var x := s[|s| - 1];
      assert FarApart(init, tol);
      FarApartSingletons(init, tol);
      var prev := Groups(init, tol);
      var k := FirstFit(prev, x, tol);
      if k < |prev| {
        assert false;
      }
    }
  }

  /** Adding a source never shrinks a group. */
  lemma GroupsGrow(s: seq<Source>, tol: nat)
    requires |s| > 0
    ensures |Groups(s[..|s| - 1], tol)| <= |Groups(s, tol)|
    ensures forall k :: 0 <= k < |Groups(s[..|s| - 1], tol)| ==> |Groups(s[..|s| - 1], tol)[k]| <= |Groups(s, tol)[k]|
  {
  }

  /** A source within the tolerance of an earlier singleton's head joins a
      group that then has two members. */
  lemma JoinsEarlierGroup(s: seq<Source>, tol: nat, i: nat)
    requires |s| > 0 && i < |s| - 1
    requires i < |Groups(s[..|s| - 1], tol)| && Groups(s[..|s| - 1], tol)[i][0] == s[i]
    requires AbsDiff(s[i].date, s[|s| - 1].date) <= tol
    ensures exists k :: 0 <= k < |Groups(s, tol)| && |Groups(s, tol)[k]| >= 2
  {
    var prev := Groups(s[..|s| - 1], tol);
    var x := s[|s| - 1];
    var f := FirstFit(prev, x, tol);
    assert f <= i;
    assert Groups(s, tol)[f] == prev[f] + [x];
  }

  /** A source far from all earlier ones keeps a far-apart list far apart. */
  lemma ExtendFarApart(s: seq<Source>, tol: nat)
    requires |s| > 0 && FarApart(s[..|s| - 1], tol)
    requires forall i :: 0 <= i < |s| - 1 ==> AbsDiff(s[i].date, s[|s| - 1].date) > tol
    ensures FarApart(s, tol)
  {
    forall i, j | 0 <= i < j < |s|
      ensures AbsDiff(s[i].date, s[j].date) > tol
    {
      if j < |s| - 1 {
        assert s[..|s| - 1][i] == s[i] && s[..|s| - 1][j] == s[j];
      }
    }
  }

  /** When two sources lie within the tolerance, some group has two
      members. */
  lemma {:induction false} ClosePairMakesGroup(s: seq<Source>, tol: nat)
    requires !FarApart(s, tol)
    ensures exists k :: 0 <= k < |Groups(s, tol)| && |Groups(s, tol)[k]| >= 2
  {
    var init := s[..|s| - 1];
    if !FarApart(init, tol) {
      ClosePairMakesGroup(init, tol);
      GroupsGrow(s, tol);
      var k :| 0 <= k < |Groups(init, tol)| && |Groups(init, tol)[k]| >= 2;
      assert |Groups(s, tol)[k]| >= 2;
    } else {
      FarApartSingletons(init, tol);
      if forall i :: 0 <= i < |s| - 1 ==> AbsDiff(s[i].date, s[|s| - 1].date) > tol {
        ExtendFarApart(s, tol);
        assert false;
      }
      var i :| 0 <= i < |s| - 1 && AbsDiff(s[i].date, s[|s| - 1].date) <= tol;
      assert Groups(init, tol)[i] == [init[i]];
      JoinsEarlierGroup(s, tol, i);
    }
  }

  /** A consensus exists exactly when some two sources lie within the
      consensus tolerance of each other. */
  lemma ConsensusIffClosePair(s: seq<Source>, hasTimeInfo: bool)
    ensures FindConsensusDate(s, hasTimeInfo).Some? <==> !FarApart(s, ConsensusTolerance(hasTimeInfo))
  {
    var tol := ConsensusTolerance(hasTimeInfo);
    var gs := Groups(s, tol);
    var big := LargestGroup(gs);
    if FarApart(s, tol) {
      FarApartSingletons(s, tol);
      if |gs| > 0 {
        var k :| 0 <= k < |gs| && gs[k] == big;
        assert gs[k] == [s[k]];
      }
    } else {
      ClosePairMakesGroup(s, tol);
    }
  }

  // ---------------------------------------------------------------- selection

  /** `sources.filter(s => s.hasTime)`: every time-bearing source, as often
      as it occurs, and nothing else. */
  function TimeAware(s: seq<Source>): (t: seq<Source>)
    ensures forall k :: 0 <= k < |t| ==> t[k].hasTime && t[k] in s
    ensures |t| == 0 <==> !HasTimeInfo(s)
    ensures |t| <= |s|
  {
    if |s| == 0 then []
    else
      var rest := TimeAware(s[1..]);
      assert HasTimeInfo(s[1..]) ==> HasTimeInfo(s) by {
        if HasTimeInfo(s[1..]) { var k :| 0 <= k < |s[1..]| && s[1..][k].hasTime; assert s[k + 1].hasTime; }
      }
      assert HasTimeInfo(s) ==> s[0].hasTime || HasTimeInfo(s[1..]) by {
        if HasTimeInfo(s) && !s[0].hasTime {
          var k :| 0 <= k < |s| && s[k].hasTime;
          assert s[1..][k - 1].hasTime;
        }
      }
      if s[0].hasTime then [s[0]] + rest else rest
  }

  /** The filter keeps every time-bearing source as often as it occurs and
      drops every other. */
  lemma {:induction false} TimeAwareCounts(s: seq<Source>, x: Source)
    ensures multiset(TimeAware(s))[x] == if x.hasTime then multiset(s)[x] else 0
  {
    if |s| > 0 {
      assert s == [s[0]] + s[1..];
      TimeAwareCounts(s[1..], x);
    }
  }

  /** The filter keeps order: filtering a list extended by one source
      extends the filtered list by that source when it is time-bearing. */
  lemma {:induction false} TimeAwareSnoc(s: seq<Source>, x: Source)
    ensures TimeAware(s + [x]) == TimeAware(s) + (if x.hasTime then [x] else [])
  {
    if |s| > 0 {
      assert (s + [x])[1..] == s[1..] + [x];
      TimeAwareSnoc(s[1..], x);
      assert (s + [x])[0] == s[0];
    } else {
      assert (s + [x])[1..] == [];
    }
  }

  /** `sources.find(s => s.type === kind)`. */
  function FindKind(s: seq<Source>, kind: SourceType): (r: Option<Source>)
    ensures r.Some? ==> r.value in s && r.value.kind == kind
    ensures r.None? <==> forall k :: 0 <= k < |s| ==> s[k].kind != kind
  {
    if |s| == 0 then None
    else if s[0].kind == kind then Some(s[0])
    else FindKind(s[1..], kind)
  }

  /** The sources `selectBestDateTime` chooses from: the time-bearing ones
      when there are any. */
  function Considered(s: seq<Source>): (c: seq<Source>)
    ensures forall k :: 0 <= k < |c| ==> c[k] in s
    ensures |s| > 0 ==> |c| > 0
    ensures HasTimeInfo(s) ==> forall k :: 0 <= k < |c| ==> c[k].hasTime
  {
    var t := TimeAware(s);
    if |t| > 0 then t else s
  }

  /** `selectBestDateTime`. */
  function SelectBestDateTime(s: seq<Source>, a: Analysis): (r: Option<int>)
    ensures r.None? <==> |s| == 0
    ensures r.Some? ==> exists x :: x in s && x.date == r.value
    ensures r.Some? && HasTimeInfo(s) ==> exists x :: x in s && x.hasTime && x.date == r.value
  {
    if |s| == 0 then None
    else
      var c := Considered(s);
      match FindKind(c, ExifOriginal)
      case Some(x) => Some(x.date)
      case None =>
        if a.consistency == High && |c| > 1 then
          var d := FindConsensusDate(c, a.hasTimeInfo);
          if d.Some? then
            var k :| 0 <= k < |c| && c[k].date == d.value;
            assert c[k] in s;
            d
          else Some(c[0].date)
        else Some(c[0].date)
  }

  /** An original capture time that is time-bearing always wins. */
  lemma OriginalWins(s: seq<Source>, a: Analysis, i: nat)
    requires i < |s| && s[i].kind == ExifOriginal && s[i].hasTime
    ensures exists x :: x in s && x.kind == ExifOriginal && SelectBestDateTime(s, a) == Some(x.date)
  {
    var c := Considered(s);
    assert HasTimeInfo(s);
    assert s[i] in TimeAware(s) by { TimeAwareKeeps(s, i); }
  }

  /** Second tier: without an original among the considered sources, a
      high consistency and a consensus among them make the consensus the
      estimate. */
  lemma ConsensusTier(s: seq<Source>, a: Analysis, d: int)
    requires forall k :: 0 <= k < |Considered(s)| ==> Considered(s)[k].kind != ExifOriginal
    requires a.consistency == High
    requires FindConsensusDate(Considered(s), a.hasTimeInfo) == Some(d)
    ensures SelectBestDateTime(s, a) == Some(d)
  {
    assert |Considered(s)| >= 2;
  }

  /** Last tier: otherwise the estimate is the first considered source. On
      the sorted source list that is the head of the list, and it is at
      least as reliable as every considered source. */
  lemma FallbackTier(s: seq<Source>, a: Analysis)
    requires |s| > 0
    requires forall k :: 0 <= k < |Considered(s)| ==> Considered(s)[k].kind != ExifOriginal
    requires !(a.consistency == High && FindConsensusDate(Considered(s), a.hasTimeInfo).Some?)
    ensures SelectBestDateTime(s, a) == Some(Considered(s)[0].date)
    ensures SortedSources(s) ==> Considered(s)[0] == s[0]
    ensures SortedSources(s) ==> forall k :: 0 <= k < |Considered(s)| ==> Considered(s)[k].reliability <= s[0].reliability
  {
    if SortedSources(s) {
      SortedHeadLeads(s);
    }
  }

  /** On a sorted list the time-bearing sources come first, so the head is
      the first considered source and the most reliable one. */
  lemma SortedHeadLeads(s: seq<Source>)
    requires |s| > 0 && SortedSources(s)
    ensures Considered(s)[0] == s[0]
    ensures forall k :: 0 <= k < |Considered(s)| ==> Considered(s)[k].reliability <= s[0].reliability
  {
    var c := Considered(s);
    if HasTimeInfo(s) {
      var j :| 0 <= j < |s| && s[j].hasTime;
      assert s[0].hasTime;
      assert TimeAware(s) == [s[0]] + TimeAware(s[1..]);
      forall k | 0 <= k < |c| ensures c[k].reliability <= s[0].reliability {
        var i :| 0 <= i < |s| && s[i] == c[k];
      }
    } else {
      assert c == s;
      forall k | 0 <= k < |c| ensures c[k].reliability <= s[0].reliability {
        if k > 0 { assert !s[0].hasTime && !s[k].hasTime; }
      }
    }
  }

  lemma {:induction false} TimeAwareKeeps(s: seq<Source>, i: nat)
    requires i < |s| && s[i].hasTime
    ensures s[i] in TimeAware(s)
  {
    if i > 0 {
      TimeAwareKeeps(s[1..], i - 1);
    }
  }

  // --------------------------------------------------------------- confidence

  /** Some file-name source carries a time of day. */
  predicate HasTimedFilename(s: seq<Source>) {
    exists k :: 0 <= k < |s| && s[k].kind == Filename && s[k].hasTime
  }

  predicate HasKind(s: seq<Source>, kind: SourceType) {
    exists k :: 0 <= k < |s| && s[k].kind == kind
  }

  /** `calculateConfidence`: the first source's reliability scaled by the
      agreement ratio and by the boosts, capped at 1. */
  function CalculateConfidence(s: seq<Source>, a: Analysis): (c: real)
    ensures |s| == 0 ==> c == 0.0
    ensures c <= 1.0
  {
    if |s| == 0 then 0.0
    else ConfidenceOf(s[0].reliability, a.agreement, s, a.hasTimeInfo)
  }

  /** The confidence of a non-empty list led by a source of reliability
      `r`, at agreement `g`. */
  function ConfidenceOf(r: real, g: real, s: seq<Source>, hasTimeInfo: bool): (c: real)
    ensures c <= 1.0
  {
    Capped(Boosted(r * g, s, hasTimeInfo))
  }

  /** `Math.min(c, 1.0)`. */
  function Capped(c: real): (r: real)
    ensures r <= 1.0 && r <= c
    ensures c <= 1.0 ==> r == c
  {
    if c < 1.0 then c else 1.0
  }

  /** The four boosts applied in turn: several sources, an original capture
      time, time-of-day information, a time-bearing file name. */
  function Boosted(base: real, s: seq<Source>, hasTimeInfo: bool): (c: real)
    ensures base >= 0.0 ==> c >= base
    ensures base == 0.0 ==> c == 0.0
  {
    var c1 := if |s| > 1 then base * 1.2 else base;
    var c2 := if HasKind(s, ExifOriginal) then c1 * 1.3 else c1;
    var c3 := if hasTimeInfo then c2 * 1.1 else c2;
    if HasTimedFilename(s) then c3 * 1.15 else c3
  }

  lemma BoostedMonotone(x: real, y: real, s: seq<Source>, hasTimeInfo: bool)
    requires x <= y
    ensures Boosted(x, s, hasTimeInfo) <= Boosted(y, s, hasTimeInfo)
  {
  }

  /** The boosts only scale the agreement: with the sources fixed, a
      higher agreement never lowers the confidence. */
  lemma ConfidenceMonotoneInAgreement(r: real, g1: real, g2: real, s: seq<Source>, hasTimeInfo: bool)
    requires r >= 0.0 && g1 <= g2
    ensures ConfidenceOf(r, g1, s, hasTimeInfo) <= ConfidenceOf(r, g2, s, hasTimeInfo)
  {
    ScaleMonotone(r, g1, g2);
    BoostedMonotone(r * g1, r * g2, s, hasTimeInfo);
    CappedMonotone(Boosted(r * g1, s, hasTimeInfo), Boosted(r * g2, s, hasTimeInfo));
  }

  lemma CappedMonotone(x: real, y: real)
    requires x <= y
    ensures Capped(x) <= Capped(y)
  {
  }

  lemma ScaleMonotone(r: real, x: real, y: real)
    requires r >= 0.0 && x <= y
    ensures r * x <= r * y
  {
    assert r * y - r * x == r * (y - x);
  }

  /** A non-negative leading reliability and agreement give a non-negative
      confidence, and no agreement at all gives zero. */
  lemma ConfidenceNonNegative(s: seq<Source>, a: Analysis)
    requires |s| > 0
    ensures s[0].reliability >= 0.0 && a.agreement >= 0.0 ==> CalculateConfidence(s, a) >= 0.0
    ensures a.agreement == 0.0 ==> CalculateConfidence(s, a) == 0.0
  {
    if s[0].reliability >= 0.0 && a.agreement >= 0.0 {
      ScaleMonotone(s[0].reliability, 0.0, a.agreement);
    }
  }

  /** Several fully agreeing sources led by a source of reliability 0.85 or
      more reach the cap of 1 whenever an original capture time is among
      them. */
  lemma FullAgreementWithOriginalIsCertain(s: seq<Source>, a: Analysis)
    requires |s| > 1 && s[0].reliability >= 0.85 && a.agreement == 1.0
    requires HasKind(s, ExifOriginal)
    ensures CalculateConfidence(s, a) == 1.0
  {
    var base := s[0].reliability * a.agreement;
    assert base >= 0.85;
    var c2 := base * 1.2 * 1.3;
    assert c2 >= 1.0;
    var c3 := if a.hasTimeInfo then c2 * 1.1 else c2;
    assert c3 >= c2;
  }

  /** A lone file-modification time in full agreement with itself scores
      0.3 boosted only by its time of day. */
  lemma LoneMtimeConfidence(t: int, a: Analysis)
    requires a.agreement == 1.0 && a.hasTimeInfo
    ensures CalculateConfidence([MtimeSource(t)], a) == 0.33
  {
    assert !HasKind([MtimeSource(t)], ExifOriginal);
    assert !HasTimedFilename([MtimeSource(t)]);
  }
}
