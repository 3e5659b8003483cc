/**
 Groups of speech from a measured envelope: windows loud enough to be voice,
 joined across pauses that are shorter than the gap. What loudness a level has
 is a parameter.
 */
module SpeechGroups {
  import opened Options

  datatype Group = Group(start: real, end: real)

  datatype Thresholds = Thresholds(ratioPercent: int, gapMilliseconds: int, floorDb: int, percentile: int, dominanceDb: int,
                                   sustainWindows: int, rangePercent: int)

  /** The whole decibels of a level. */
  datatype Loudness = Loudness(of: int -> int)
  {
    function Decibels(level: int): int {
      of(level)
    }
  }

  predicate ValidThresholds(t: Thresholds) {
    && 1 <= t.ratioPercent <= 100 && 20 <= t.gapMilliseconds <= 60000 && 0 <= t.floorDb <= 120
    && 1 <= t.percentile <= 100 && 0 <= t.dominanceDb <= 120 && 1 <= t.sustainWindows <= 100000
  }

  // ---- Spans of windows --------------------------------------------------------------

  /** The windows from first up to end. */
  datatype Span = Span(first: nat, end: nat)

  /** The spans of the first n windows. */
  function SpansTo(voiced: seq<bool>, gap: nat, n: nat): seq<Span>
    requires n <= |voiced|
  {
    if n == 0 then []
    else
      var spans := SpansTo(voiced, gap, n - 1);
      if !voiced[n - 1] then spans
      else if spans == [] || n - 1 - spans[|spans| - 1].end >= gap then spans + [Span(n - 1, n)]
      else spans[|spans| - 1 := spans[|spans| - 1].(end := n)]
  }

  /** In order, at least the gap apart, each starting and ending with voice. */
  ghost predicate AreApart(voiced: seq<bool>, gap: nat, spans: seq<Span>) {
    && (forall i :: 0 <= i < |spans| ==> spans[i].first < spans[i].end <= |voiced| &&
                                         voiced[spans[i].first] && voiced[spans[i].end - 1])
    && (forall i, j :: 0 <= i < j < |spans| ==> spans[i].end + gap <= spans[j].first)
  }

  ghost predicate Holds(spans: seq<Span>, k: int) {
    exists i :: 0 <= i < |spans| && spans[i].first <= k < spans[i].end
  }

  /** Some voice among the windows from a on, as many as the gap. */
  ghost predicate Heard(voiced: seq<bool>, a: int, gap: nat) {
    exists k :: a <= k < a + gap && 0 <= k < |voiced| && voiced[k]
  }

  /** No pause inside a span is as long as the gap. */
  ghost predicate HasNoGap(voiced: seq<bool>, gap: nat, span: Span) {
    forall a {:trigger Heard(voiced, a, gap)} :: span.first <= a && a + gap <= span.end ==> Heard(voiced, a, gap)
  }

  ghost predicate AreSpans(voiced: seq<bool>, gap: nat, spans: seq<Span>, n: nat) {
    && AreApart(voiced, gap, spans)
    && (forall i :: 0 <= i < |spans| ==> spans[i].end <= n)
    && (forall k {:trigger Holds(spans, k)} :: 0 <= k < n <= |voiced| && voiced[k] ==> Holds(spans, k))
    && (forall i :: 0 <= i < |spans| ==> HasNoGap(voiced, gap, spans[i]))
  }

  lemma LongerHasNoGap(voiced: seq<bool>, gap: nat, span: Span, n: nat)
    requires 0 < n <= |voiced| && voiced[n - 1] && HasNoGap(voiced, gap, span) && span.first < span.end
    requires n - 1 - span.end < gap && span.end <= n - 1 && span.end <= |voiced| && voiced[span.end - 1]
    ensures HasNoGap(voiced, gap, Span(span.first, n))
  {
    forall a | span.first <= a && a + gap <= n ensures Heard(voiced, a, gap) {
      if a + gap > span.end {
        var k := if a + gap == n then n - 1 else span.end - 1;
        assert a <= k < a + gap && voiced[k];
      }
    }
  }

  lemma StillHeld(spans: seq<Span>, more: seq<Span>, k: int)
    requires Holds(spans, k) && |spans| <= |more|
    requires forall i :: 0 <= i < |spans| ==> more[i].first == spans[i].first && spans[i].end <= more[i].end
    ensures Holds(more, k)
  {
    var i :| 0 <= i < |spans| && spans[i].first <= k < spans[i].end;
    assert more[i].first <= k < more[i].end;
  }

  lemma AllHeld(voiced: seq<bool>, before: seq<Span>, after: seq<Span>, n: nat)
    requires 0 < n <= |voiced| && 0 < |after| && |before| <= |after|
    requires forall k {:trigger Holds(before, k)} :: 0 <= k < n - 1 && voiced[k] ==> Holds(before, k)
    requires forall i :: 0 <= i < |before| ==> after[i].first == before[i].first && before[i].end <= after[i].end
    requires after[|after| - 1].first < n == after[|after| - 1].end
    ensures forall k {:trigger Holds(after, k)} :: 0 <= k < n && voiced[k] ==> Holds(after, k)
  {
    forall k | 0 <= k < n && voiced[k] ensures Holds(after, k) {
      if k == n - 1 {
        assert after[|after| - 1].first <= k < after[|after| - 1].end;
      } else {
        StillHeld(before, after, k);
      }
    }
  }

  /** A voiced window far enough behind the last span starts one. */
  lemma NewSpan(voiced: seq<bool>, gap: nat, before: seq<Span>, n: nat)
    requires 0 < n <= |voiced| && gap > 0 && voiced[n - 1] && AreSpans(voiced, gap, before, n - 1)
    requires before == [] || n - 1 - before[|before| - 1].end >= gap
    ensures AreSpans(voiced, gap, before + [Span(n - 1, n)], n)
  {
    var after := before + [Span(n - 1, n)];
    assert HasNoGap(voiced, gap, Span(n - 1, n)) by {
      forall a | n - 1 <= a && a + gap <= n ensures Heard(voiced, a, gap) {
        assert a == n - 1 && voiced[a];
      }
    }
    AllHeld(voiced, before, after, n);
    forall i, j | 0 <= i < j < |after| ensures after[i].end + gap <= after[j].first {
      if j == |before| && i < |before| - 1 {
        assert before[i].end + gap <= before[|before| - 1].first;
      }
    }
  }

  /** A voiced window close behind the last span joins it. */
  lemma LongerSpan(voiced: seq<bool>, gap: nat, before: seq<Span>, n: nat)
    requires 0 < n <= |voiced| && voiced[n - 1] && AreSpans(voiced, gap, before, n - 1)
    requires before != [] && n - 1 - before[|before| - 1].end < gap
    ensures var last := |before| - 1; AreSpans(voiced, gap, before[last := before[last].(end := n)], n)
  {
    var last := |before| - 1;
    var after := before[last := before[last].(end := n)];
    LongerHasNoGap(voiced, gap, before[last], n);
    AllHeld(voiced, before, after, n);
  }

  /** Every voiced window is in a span, spans are the gap apart, and no span has a pause as long as the gap. */
  lemma {:induction false} SpansAre(voiced: seq<bool>, gap: nat, n: nat)
    requires n <= |voiced| && gap > 0
    ensures AreSpans(voiced, gap, SpansTo(voiced, gap, n), n)
  {
    if n > 0 {
      SpansAre(voiced, gap, n - 1);
      var before := SpansTo(voiced, gap, n - 1);
      if !voiced[n - 1] {
        assert forall k {:trigger Holds(before, k)} :: 0 <= k < n && voiced[k] ==> k < n - 1;
      } else if before == [] || n - 1 - before[|before| - 1].end >= gap {
        NewSpan(voiced, gap, before, n);
      } else {
        LongerSpan(voiced, gap, before, n);
      }
    }
  }

  method BuildSpans(voiced: seq<bool>, gap: nat) returns (spans: seq<Span>)
    ensures spans == SpansTo(voiced, gap, |voiced|)
  {
    spans := [];
    var open, first, voiceEnd := false, 0, 0;
    for index := 0 to |voiced|
      invariant first <= voiceEnd <= index
      invariant SpansTo(voiced, gap, index) == if open then spans + [Span(first, voiceEnd)] else spans
      invariant !open ==> spans == []
    {
      if !voiced[index] {
        continue;
      }
      if !open {
        open, first := true, index;
      } else if index - voiceEnd >= gap {
        spans := spans + [Span(first, voiceEnd)];
        first := index;
      }
      voiceEnd := index + 1;
    }
    if open {
      spans := spans + [Span(first, voiceEnd)];
    }
  }

  // ---- Groups --------------------------------------------------------------------------

  /** How many windows the gap is; at least one. */
  function GapWindows(milliseconds: int, windowsPerSecond: nat): (windows: nat)
    ensures windows > 0
  {
    if windowsPerSecond == 0 then 1
    else
      var windows := if milliseconds < 0 then 0 else (milliseconds * windowsPerSecond + 999) / 1000;
      if windows > 0 then windows else 1
  }

  function Voices(loudness: Loudness, levels: seq<int>, floor: int): (voiced: seq<bool>)
    ensures |voiced| == |levels|
  {
    seq(|levels|, i requires 0 <= i < |levels| => loudness.Decibels(levels[i]) >= floor)
  }

  function GroupsOf(spans: seq<Span>, grid: nat): (groups: seq<Group>)
    requires grid > 0
    ensures |groups| == |spans|
  {
    seq(|spans|, i requires 0 <= i < |spans| =>
      Group(spans[i].first as real / grid as real, spans[i].end as real / grid as real))
  }

  const INT32_MAX := 0x7fff_ffff

  /** The groups of an envelope, or a refusal of its grid, the thresholds or its levels. */
  function GroupsFrom(loudness: Loudness, levels: seq<int>, windowsPerSecond: nat, speechLevel: int, noiseFloor: int,
                      t: Thresholds): Option<seq<Group>>
  {
    if windowsPerSecond == 0 || windowsPerSecond > INT32_MAX || !ValidThresholds(t) || speechLevel < 0 || noiseFloor < 0
    then None
    else if speechLevel * 100 < noiseFloor * t.rangePercent then Some([])
    else
      var louder := loudness.Decibels(noiseFloor) + t.floorDb;
      var voiced := Voices(loudness, levels, if louder < 0 then louder else 0);
      Some(GroupsOf(SpansTo(voiced, GapWindows(t.gapMilliseconds, windowsPerSecond), |voiced|), windowsPerSecond))
  }

  method BuildSpeechGroups(loudness: Loudness, levels: seq<int>, windowsPerSecond: nat, speechLevel: int, noiseFloor: int,
                           t: Thresholds) returns (r: Option<seq<Group>>)
    ensures r == GroupsFrom(loudness, levels, windowsPerSecond, speechLevel, noiseFloor, t)
    ensures r.Some? <==>
              && 0 < windowsPerSecond <= INT32_MAX && speechLevel >= 0 && noiseFloor >= 0
              && 1 <= t.ratioPercent <= 100 && 20 <= t.gapMilliseconds <= 60000 && 0 <= t.floorDb <= 120
              && 1 <= t.percentile <= 100 && 0 <= t.dominanceDb <= 120 && 1 <= t.sustainWindows <= 100000
  {
    if windowsPerSecond == 0 || windowsPerSecond > INT32_MAX {
      return None;
    }
    if !ValidThresholds(t) {
      return None;
    }
    if speechLevel < 0 || noiseFloor < 0 {
      return None;
    }
    if levels == [] || speechLevel * 100 < noiseFloor * t.rangePercent {
      return Some([]);
    }
    var louder := loudness.Decibels(noiseFloor) + t.floorDb;
    var voiced := Voices(loudness, levels, if louder < 0 then louder else 0);
    var spans := BuildSpans(voiced, GapWindows(t.gapMilliseconds, windowsPerSecond));
    return Some(GroupsOf(spans, windowsPerSecond));
  }

  // ---- What the groups of an envelope are -------------------------------------------------

  /** A window as loud as the floor above the noise, or as full scale. */
  ghost predicate Loud(loudness: Loudness, levels: seq<int>, noiseFloor: int, t: Thresholds, k: int) {
    0 <= k < |levels| &&
    (loudness.of(levels[k]) >= loudness.of(noiseFloor) + t.floorDb || loudness.of(levels[k]) >= 0)
  }

  /** The gap in windows is the least number of them that lasts as long. */
  lemma GapIsLeast(milliseconds: int, windowsPerSecond: nat)
    requires milliseconds > 0 && windowsPerSecond > 0
    ensures var windows := GapWindows(milliseconds, windowsPerSecond);
            1000 * windows >= milliseconds * windowsPerSecond > 1000 * (windows - 1)
  {
    var n := milliseconds * windowsPerSecond;
    assert n > 0;
  }

  /** When a window begins, in seconds. */
  function At(k: int, grid: nat): real
    requires grid > 0
  {
    k as real / grid as real
  }

  lemma TimesOrdered(a: int, b: int, grid: nat)
    requires grid > 0
    ensures At(a, grid) <= At(b, grid) <==> a <= b
  {
    if a < b {
      assert At(b, grid) - At(a, grid) == (b - a) as real / grid as real > 0.0;
    } else {
      assert At(a, grid) - At(b, grid) == (a - b) as real / grid as real >= 0.0;
    }
  }

  ghost predicate StartsAndEnds(g: Group, grid: nat, first: int, last: int)
    requires grid > 0
  {
    g.start == At(first, grid) && g.end == At(last + 1, grid)
  }

  /** The group lasts from before the window to after it. */
  ghost predicate LastsOver(g: Group, grid: nat, k: int)
    requires grid > 0
  {
    g.start <= At(k, grid) && At(k + 1, grid) <= g.end
  }

  ghost predicate InSome(groups: seq<Group>, grid: nat, k: int)
    requires grid > 0
  {
    exists i :: 0 <= i < |groups| && LastsOver(groups[i], grid, k)
  }

  /** Some loud window is the group's first and some loud window its last. */
  ghost predicate LoudEdges(loudness: Loudness, levels: seq<int>, grid: nat, noiseFloor: int, t: Thresholds, g: Group)
    requires grid > 0
  {
    exists first, last :: StartsAndEnds(g, grid, first, last) && first <= last &&
                          Loud(loudness, levels, noiseFloor, t, first) && Loud(loudness, levels, noiseFloor, t, last)
  }

  ghost predicate LoudInGroups(loudness: Loudness, levels: seq<int>, grid: nat, noiseFloor: int, t: Thresholds,
                               groups: seq<Group>)
    requires grid > 0
  {
    && (forall k :: Loud(loudness, levels, noiseFloor, t, k) ==> InSome(groups, grid, k))
    && (forall i :: 0 <= i < |groups| ==> LoudEdges(loudness, levels, grid, noiseFloor, t, groups[i]))
  }

  /** Between groups the gap at least, inside one no pause as long. */
  ghost predicate PausesRight(loudness: Loudness, levels: seq<int>, grid: nat, noiseFloor: int, t: Thresholds,
                              groups: seq<Group>)
    requires grid > 0
  {
    && (forall i, j :: 0 <= i < j < |groups| ==>
          (groups[j].start - groups[i].end) * 1000.0 >= t.gapMilliseconds as real)
    && (forall i, a, b {:trigger LastsOver(groups[i], grid, a), LastsOver(groups[i], grid, b)} ::
          0 <= i < |groups| && LastsOver(groups[i], grid, a) && LastsOver(groups[i], grid, b) &&
          1000 * (b + 1 - a) >= t.gapMilliseconds * grid ==>
            exists k :: a <= k <= b && Loud(loudness, levels, noiseFloor, t, k))
  }

  lemma GridTimes(n: int, grid: nat)
    requires grid > 0
    ensures n as real / grid as real * grid as real == n as real
  {
  }

  /** A time of at least so many windows is at least as many milliseconds. */
  lemma GapLasts(a: nat, b: nat, gap: nat, grid: nat, milliseconds: int)
    requires grid > 0 && a + gap <= b && 1000 * gap >= milliseconds * grid
    ensures (b as real / grid as real - a as real / grid as real) * 1000.0 >= milliseconds as real
  {
    var d := b as real / grid as real - a as real / grid as real;
    GridTimes(a, grid);
    GridTimes(b, grid);
    assert d * grid as real == (b - a) as real;
    assert d * 1000.0 * grid as real >= milliseconds as real * grid as real;
  }

  /**
   Above the dynamic range, the groups say when there is speech: every loud
   window is in one, each starts and ends with one, they are the gap apart, and
   no pause as long as the gap is inside one. Below it there is no group.
   */
  lemma GroupsMean(loudness: Loudness, levels: seq<int>, grid: nat, speechLevel: int, noiseFloor: int, t: Thresholds)
    requires GroupsFrom(loudness, levels, grid, speechLevel, noiseFloor, t).Some?
    ensures var groups := GroupsFrom(loudness, levels, grid, speechLevel, noiseFloor, t).value;
            if speechLevel * 100 < noiseFloor * t.rangePercent then groups == []
            else grid > 0 && LoudInGroups(loudness, levels, grid, noiseFloor, t, groups) &&
                 PausesRight(loudness, levels, grid, noiseFloor, t, groups)
  {
    if speechLevel * 100 >= noiseFloor * t.rangePercent {
      var louder := loudness.Decibels(noiseFloor) + t.floorDb;
      var voiced := Voices(loudness, levels, if louder < 0 then louder else 0);
      VoicedIsLoud(loudness, levels, noiseFloor, t, voiced);
      BuiltMean(loudness, levels, grid, noiseFloor, t, voiced);
    }
  }

  lemma VoicedIsLoud(loudness: Loudness, levels: seq<int>, noiseFloor: int, t: Thresholds, voiced: seq<bool>)
    requires var louder := loudness.Decibels(noiseFloor) + t.floorDb;
             voiced == Voices(loudness, levels, if louder < 0 then louder else 0)
    ensures forall k :: 0 <= k < |levels| ==> (voiced[k] <==> Loud(loudness, levels, noiseFloor, t, k))
  {
  }

  lemma BuiltMean(loudness: Loudness, levels: seq<int>, grid: nat, noiseFloor: int, t: Thresholds, voiced: seq<bool>)
    requires grid > 0 && t.gapMilliseconds > 0 && |voiced| == |levels|
    requires forall k :: 0 <= k < |levels| ==> (voiced[k] <==> Loud(loudness, levels, noiseFloor, t, k))
    ensures var groups := GroupsOf(SpansTo(voiced, GapWindows(t.gapMilliseconds, grid), |voiced|), grid);
            LoudInGroups(loudness, levels, grid, noiseFloor, t, groups) &&
            PausesRight(loudness, levels, grid, noiseFloor, t, groups)
  {
    var gap := GapWindows(t.gapMilliseconds, grid);
    var spans := SpansTo(voiced, gap, |voiced|);
    SpansAre(voiced, gap, |voiced|);
    GapIsLeast(t.gapMilliseconds, grid);
    SpansHoldLoud(loudness, levels, grid, noiseFloor, t, voiced, gap, spans);
    SpansPause(loudness, levels, grid, noiseFloor, t, voiced, gap, spans);
  }

  lemma SpansHoldLoud(loudness: Loudness, levels: seq<int>, grid: nat, noiseFloor: int, t: Thresholds, voiced: seq<bool>,
                      gap: nat, spans: seq<Span>)
    requires grid > 0 && |voiced| == |levels| && AreSpans(voiced, gap, spans, |voiced|)
    requires forall k :: 0 <= k < |levels| ==> (voiced[k] <==> Loud(loudness, levels, noiseFloor, t, k))
    ensures LoudInGroups(loudness, levels, grid, noiseFloor, t, GroupsOf(spans, grid))
  {
    var groups := GroupsOf(spans, grid);
    forall k | Loud(loudness, levels, noiseFloor, t, k)
      ensures InSome(groups, grid, k)
    {
      assert Holds(spans, k);
      var i :| 0 <= i < |spans| && spans[i].first <= k < spans[i].end;
      TimesOrdered(spans[i].first, k, grid);
      TimesOrdered(k + 1, spans[i].end, grid);
      assert LastsOver(groups[i], grid, k);
    }
    forall i | 0 <= i < |groups|
      ensures LoudEdges(loudness, levels, grid, noiseFloor, t, groups[i])
    {
      assert StartsAndEnds(groups[i], grid, spans[i].first, spans[i].end - 1);
    }
  }

  lemma SpansPause(loudness: Loudness, levels: seq<int>, grid: nat, noiseFloor: int, t: Thresholds, voiced: seq<bool>,
                   gap: nat, spans: seq<Span>)
    requires grid > 0 && |voiced| == |levels| && AreSpans(voiced, gap, spans, |voiced|)
    requires forall k :: 0 <= k < |levels| ==> (voiced[k] <==> Loud(loudness, levels, noiseFloor, t, k))
    requires 1000 * gap >= t.gapMilliseconds * grid > 1000 * (gap - 1)
    ensures PausesRight(loudness, levels, grid, noiseFloor, t, GroupsOf(spans, grid))
  {
    var groups := GroupsOf(spans, grid);
    forall i, j | 0 <= i < j < |groups|
      ensures (groups[j].start - groups[i].end) * 1000.0 >= t.gapMilliseconds as real
    {
      GapLasts(spans[i].end, spans[j].first, gap, grid, t.gapMilliseconds);
    }
    forall i, a, b | 0 <= i < |groups| && LastsOver(groups[i], grid, a) && LastsOver(groups[i], grid, b) &&
                     1000 * (b + 1 - a) >= t.gapMilliseconds * grid
      ensures exists k :: a <= k <= b && Loud(loudness, levels, noiseFloor, t, k)
    {
      TimesOrdered(spans[i].first, a, grid);
      TimesOrdered(b + 1, spans[i].end, grid);
      HeardBetween(voiced, gap, spans[i], a, b);
    }
  }

  lemma HeardBetween(voiced: seq<bool>, gap: nat, span: Span, a: int, b: int)
    requires HasNoGap(voiced, gap, span) && span.first <= a && b + 1 <= span.end && b + 1 - a >= gap
    ensures exists k :: a <= k <= b && 0 <= k < |voiced| && voiced[k]
  {
    assert Heard(voiced, a, gap);
  }

  /** Groups in order, none overlapping the next. */
  ghost predicate Disjoint(groups: seq<Group>) {
    && (forall i :: 0 <= i < |groups| ==> groups[i].start <= groups[i].end)
    && (forall i, j :: 0 <= i < j < |groups| ==> groups[i].end <= groups[j].start)
  }

  lemma Ordered(a: nat, b: nat, grid: nat)
    requires a <= b && grid > 0
    ensures a as real / grid as real <= b as real / grid as real
  {
  }

  /** The groups of any envelope are in order and disjoint. */
  lemma GroupsAreDisjoint(loudness: Loudness, levels: seq<int>, windowsPerSecond: nat, speechLevel: int, noiseFloor: int,
                          t: Thresholds)
    requires GroupsFrom(loudness, levels, windowsPerSecond, speechLevel, noiseFloor, t).Some?
    ensures Disjoint(GroupsFrom(loudness, levels, windowsPerSecond, speechLevel, noiseFloor, t).value)
  {
    if speechLevel * 100 >= noiseFloor * t.rangePercent {
      var louder := loudness.Decibels(noiseFloor) + t.floorDb;
      var voiced := Voices(loudness, levels, if louder < 0 then louder else 0);
      var gap := GapWindows(t.gapMilliseconds, windowsPerSecond);
      var spans := SpansTo(voiced, gap, |voiced|);
      SpansAre(voiced, gap, |voiced|);
      forall i | 0 <= i < |spans|
        ensures spans[i].first as real / windowsPerSecond as real <= spans[i].end as real / windowsPerSecond as real
      {
        Ordered(spans[i].first, spans[i].end, windowsPerSecond);
      }
      forall i, j | 0 <= i < j < |spans|
        ensures spans[i].end as real / windowsPerSecond as real <= spans[j].first as real / windowsPerSecond as real
      {
        Ordered(spans[i].end, spans[j].first, windowsPerSecond);
      }
    }
  }
}
