/** Trimming edges never cuts speech, leaves the frames asked for, and has nothing left to do a second time. */
module BoundaryAirSafety {
  import opened Options
  import opened BoundaryAir
  import opened SpeechGroups

  // ---- What is kept ---------------------------------------------------------------------

  /** The cuts are on the grid and leave at least the frames to keep, and less than one more, beside the speech. */
  lemma CutsKeepFrames(m: Measured, settings: Settings, rate: Rate)
    requires ValidSettings(settings, rate)
    ensures var f, kept := FrameTime(rate), Frames(settings.keepFrames, FrameTime(rate));
            kept >= 0.0 &&
            kept <= m.speechStart - HeadCut(m, settings, rate) < kept + f &&
            kept <= TailCut(m, settings, rate) - m.speechEnd < kept + f &&
            OnGrid(HeadCut(m, settings, rate), f) && OnGrid(TailCut(m, settings, rate), f)
  {
    var f := FrameTime(rate);
    Rounding(m.speechStart, rate);
    Rounding(m.speechEnd, rate);
    NonNegative(settings.keepFrames, f);
    MoveOnGrid(RoundToSourceFrame(m.speechStart, rate, false), settings.keepFrames, f);
    MoveOnGrid(RoundToSourceFrame(m.speechEnd, rate, true), settings.keepFrames, f);
  }

  /** Whole frames lead from the grid to the grid. */
  lemma MoveOnGrid(t: real, k: int, f: real)
    requires OnGrid(t, f)
    ensures OnGrid(t + Frames(k, f), f) && OnGrid(t - Frames(k, f), f)
  {
    var n: int :| t == Frames(n, f);
    Distribute(n as real, k as real, f);
    Distribute(n as real, -(k as real), f);
    assert Frames(n + k, f) == t + Frames(k, f);
    assert Frames(n - k, f) == t - Frames(k, f);
  }

  lemma NonNegative(k: int, f: real)
    requires k >= 0 && f > 0.0
    ensures Frames(k, f) >= 0.0
  {
  }

  /** A clip that starts and ends around its measured speech, at its own edges or at cuts inside them. */
  ghost predicate IsTrimOf(clip: Clip, c: Clip, headCut: real, tailCut: real) {
    && (c.sourceIn == clip.sourceIn || (c.sourceIn == headCut && c.sourceIn > clip.sourceIn))
    && (c.End() == clip.End() || (c.End() == tailCut && c.End() < clip.End()))
  }

  lemma HeadTrimmed(clip: Clip, head: seq<Trim>, cut: real)
    requires head == [] || (head == [Trim(clip.id, Head, cut - clip.sourceIn)] && cut > clip.sourceIn)
    ensures var c := Trimmed(clip, head);
            c.id == clip.id && c.End() == clip.End() && c.sourceIn == if head == [] then clip.sourceIn else cut
  {
  }

  lemma TailTrimmed(clip: Clip, head: seq<Trim>, tail: seq<Trim>, cut: real)
    requires Trimmed(clip, head).id == clip.id && Trimmed(clip, head).End() == clip.End()
    requires tail == [] || (tail == [Trim(clip.id, Tail, cut - clip.End())] && cut < clip.End())
    ensures var b, c := Trimmed(clip, head), Trimmed(clip, head + tail);
            c.sourceIn == b.sourceIn && c.End() == if tail == [] then clip.End() else cut
  {
    if tail == [] {
      assert head + tail == head;
    } else {
      assert (head + tail)[..|head|] == head && (head + tail)[|head|] == tail[0];
    }
  }

  lemma TrimmedIs(clip: Clip, head: seq<Trim>, tail: seq<Trim>, m: Measured, settings: Settings, rate: Rate)
    requires rate.num > 0 && rate.den > 0
    requires head == [] || head == HeadPart(clip, m, settings, rate)
    requires tail == [] || tail == TailPart(clip, m, settings, rate)
    ensures IsTrimOf(clip, Trimmed(clip, head + tail), HeadCut(m, settings, rate), TailCut(m, settings, rate))
    ensures Trimmed(clip, head + tail).sourceIn ==
            if head == [] then clip.sourceIn else HeadCut(m, settings, rate)
    ensures Trimmed(clip, head + tail).End() == if tail == [] then clip.End() else TailCut(m, settings, rate)
  {
    HeadTrimmed(clip, head, HeadCut(m, settings, rate));
    TailTrimmed(clip, head, tail, TailCut(m, settings, rate));
  }

  /** All of the sustained speech is still there. */
  lemma SpeechKept(clip: Clip, c: Clip, groups: seq<Group>, minimum: real, m: Measured, i: nat, j: nat, headCut: real,
                   tailCut: real)
    requires MeasuresAt(clip, groups, minimum, m, i, j) && Disjoint(groups)
    requires IsTrimOf(clip, c, headCut, tailCut) && headCut <= m.speechStart && m.speechEnd <= tailCut
    ensures c.sourceIn <= m.speechStart < m.speechEnd <= c.End() && c.duration > 0.0
    ensures KeepsGroups(clip, c, groups, minimum) && Speaks(c, groups, minimum)
  {
    SpeechBetween(clip, groups, minimum, i, j);
    forall k | 0 <= k < |groups| && Sustained(clip, groups[k], minimum)
      ensures SameClipped(clip, c, groups[k])
    {
      assert Between(clip, groups[i], groups[k], groups[j]);
    }
    assert SameClipped(clip, c, groups[i]) && Sustained(c, groups[i], minimum);
  }

  /** The two clips have the same part of the group. */
  ghost predicate SameClipped(clip: Clip, c: Clip, g: Group) {
    ClippedStart(clip, g) == ClippedStart(c, g) && ClippedEnd(clip, g) == ClippedEnd(c, g)
  }

  /** No part of a sustained group is gone. */
  ghost predicate KeepsGroups(clip: Clip, c: Clip, groups: seq<Group>, minimum: real) {
    forall k :: 0 <= k < |groups| && Sustained(clip, groups[k], minimum) ==> SameClipped(clip, c, groups[k])
  }

  ghost predicate Between(clip: Clip, first: Group, g: Group, last: Group) {
    ClippedStart(clip, first) <= ClippedStart(clip, g) && ClippedEnd(clip, g) <= ClippedEnd(clip, last)
  }

  /** Every sustained group lies between the first one's start and the last one's end. */
  lemma SpeechBetween(clip: Clip, groups: seq<Group>, minimum: real, i: nat, j: nat)
    requires Disjoint(groups) && IsFirst(clip, groups, minimum, i) && IsLast(clip, groups, minimum, j)
    ensures forall k :: 0 <= k < |groups| && Sustained(clip, groups[k], minimum) ==>
              Between(clip, groups[i], groups[k], groups[j])
    ensures ClippedStart(clip, groups[i]) < ClippedEnd(clip, groups[j])
  {
  }

  /** Measuring again on what is left finds the same speech. */
  lemma MeasuresAgain(clip: Clip, c: Clip, groups: seq<Group>, minimum: real, m: Measured, n: Measured, headCut: real,
                      tailCut: real)
    requires Disjoint(groups) && Measures(clip, groups, minimum, m) && Measures(c, groups, minimum, n)
    requires IsTrimOf(clip, c, headCut, tailCut) && headCut <= m.speechStart && m.speechEnd <= tailCut
    ensures n.speechStart == m.speechStart && n.speechEnd == m.speechEnd
    ensures n.headAir == m.speechStart - c.sourceIn && n.tailAir == c.End() - m.speechEnd
  {
    var i: nat, j: nat :| MeasuresAt(clip, groups, minimum, m, i, j);
    var a: nat, b: nat :| MeasuresAt(c, groups, minimum, n, a, b);
    SpeechKept(clip, c, groups, minimum, m, i, j, headCut, tailCut);
    forall k | 0 <= k < |groups|
      ensures Sustained(c, groups[k], minimum) <==> Sustained(clip, groups[k], minimum)
    {
      Narrower(clip, c, groups[k]);
      assert Sustained(clip, groups[k], minimum) ==> SameClipped(clip, c, groups[k]);
    }
    assert a == i && b == j;
    assert SameClipped(clip, c, groups[i]) && SameClipped(clip, c, groups[j]);
  }

  /** The measured speech lasts from the first instant to the last at which a sustained group is heard. */
  lemma AirIsSilent(clip: Clip, groups: seq<Group>, minimum: real, m: Measured, t: real) returns (i: nat, j: nat)
    requires Disjoint(groups) && Measures(clip, groups, minimum, m) && minimum > 0.0
    ensures m.headAir == m.speechStart - clip.sourceIn && m.tailAir == clip.End() - m.speechEnd
    ensures forall k :: 0 <= k < |groups| && Sustained(clip, groups[k], minimum) && SpeaksAt(clip, groups[k], t) ==>
              m.speechStart <= t < m.speechEnd
    ensures i <= j < |groups| && Sustained(clip, groups[i], minimum) && Sustained(clip, groups[j], minimum)
    ensures m.speechStart <= t < m.speechStart + minimum ==> SpeaksAt(clip, groups[i], t)
    ensures m.speechEnd - minimum <= t < m.speechEnd ==> SpeaksAt(clip, groups[j], t)
  {
    i, j :| MeasuresAt(clip, groups, minimum, m, i, j);
    SpeechBetween(clip, groups, minimum, i, j);
    PartIsShared(clip, groups[i], t);
    PartIsShared(clip, groups[j], t);
    forall k | 0 <= k < |groups| && Sustained(clip, groups[k], minimum) && SpeaksAt(clip, groups[k], t)
      ensures m.speechStart <= t < m.speechEnd
    {
      PartIsShared(clip, groups[k], t);
      assert Between(clip, groups[i], groups[k], groups[j]);
    }
  }

  /** A narrower clip has no more of a group. */
  lemma Narrower(clip: Clip, c: Clip, g: Group)
    requires clip.sourceIn <= c.sourceIn && c.End() <= clip.End()
    ensures ClippedStart(clip, g) <= ClippedStart(c, g) && ClippedEnd(c, g) <= ClippedEnd(clip, g)
  {
  }

  // ---- The theorems ------------------------------------------------------------------------

  /**
   The trims of a clip leave a clip of positive duration with all of every
   sustained group; each trimmed side is on the grid of frames, with at least
   the frames to keep left, and less than one frame more.
   */
  lemma TrimsAreSafe(clip: Clip, groups: seq<Group>, minimum: real, m: Measured, settings: Settings, rate: Rate)
    requires ValidSettings(settings, rate) && Disjoint(groups) && Measures(clip, groups, minimum, m)
    ensures var c, kept, f := Trimmed(clip, BoundaryTrims(clip, m, settings, rate)),
                              Frames(settings.keepFrames, FrameTime(rate)), FrameTime(rate);
            && c.duration > 0.0
            && c.sourceIn <= m.speechStart < m.speechEnd <= c.End()
            && Speaks(c, groups, minimum) && KeepsGroups(clip, c, groups, minimum)
            && (c.sourceIn != clip.sourceIn ==> kept <= m.speechStart - c.sourceIn < kept + f && OnGrid(c.sourceIn, f))
            && (c.End() != clip.End() ==> kept <= c.End() - m.speechEnd < kept + f && OnGrid(c.End(), f))
  {
    var head := if m.headAir >= MinimumAir(settings) then HeadPart(clip, m, settings, rate) else [];
    var tail := if m.tailAir >= MinimumAir(settings) then TailPart(clip, m, settings, rate) else [];
    TrimmedIs(clip, head, tail, m, settings, rate);
    CutsKeepFrames(m, settings, rate);
    var i: nat, j: nat :| MeasuresAt(clip, groups, minimum, m, i, j);
    SpeechKept(clip, Trimmed(clip, head + tail), groups, minimum, m, i, j, HeadCut(m, settings, rate), TailCut(m, settings, rate));
  }

  /** Each trim is one of the clip's edges, once, and removes something. */
  ghost predicate AreTrims(clip: Clip, trims: seq<Trim>) {
    && (forall i :: 0 <= i < |trims| ==>
          trims[i].clip == clip.id && (if trims[i].edge.Head? then trims[i].delta > 0.0 else trims[i].delta < 0.0))
    && (forall i, j :: 0 <= i < j < |trims| ==> trims[i].edge != trims[j].edge)
  }

  lemma TrimsAreEdges(clip: Clip, m: Measured, settings: Settings, rate: Rate)
    requires rate.num > 0 && rate.den > 0
    ensures AreTrims(clip, BoundaryTrims(clip, m, settings, rate))
  {
  }

  /** The minimum is given in milliseconds, air in seconds. */
  lemma IsEnough(air: real, settings: Settings)
    ensures air >= MinimumAir(settings) <==> 1000.0 * air >= settings.minimumMilliseconds as real
  {
  }

  /**
   The trims do what they are for: an edge with at least the minimum of air is
   left with less than one frame more than the frames to keep, and an edge with
   less is left alone. The report tells the air found and how much of it is gone.
   */
  lemma TrimsAreDone(clip: Clip, m: Measured, settings: Settings, rate: Rate)
    requires ValidSettings(settings, rate)
    ensures var c, kept, f := Trimmed(clip, BoundaryTrims(clip, m, settings, rate)),
                              Frames(settings.keepFrames, FrameTime(rate)), FrameTime(rate);
            && (if 1000.0 * m.headAir >= settings.minimumMilliseconds as real then m.speechStart - c.sourceIn < kept + f
                else c.sourceIn == clip.sourceIn)
            && (if 1000.0 * m.tailAir >= settings.minimumMilliseconds as real then c.End() - m.speechEnd < kept + f
                else c.End() == clip.End())
            && BoundaryReport(clip, m, settings, rate) ==
               Report(m.headAir, m.tailAir, c.sourceIn - clip.sourceIn, clip.End() - c.End())
  {
    var head := if m.headAir >= MinimumAir(settings) then HeadPart(clip, m, settings, rate) else [];
    var tail := if m.tailAir >= MinimumAir(settings) then TailPart(clip, m, settings, rate) else [];
    IsEnough(m.headAir, settings);
    IsEnough(m.tailAir, settings);
    TrimmedIs(clip, head, tail, m, settings, rate);
    CutsKeepFrames(m, settings, rate);
  }

  /** Resolving the trimmed clip emits no trim. */
  lemma SecondPassIsIdle(clip: Clip, groups: seq<Group>, minimum: real, m: Measured, n: Measured, settings: Settings,
                         rate: Rate)
    requires ValidSettings(settings, rate) && Disjoint(groups) && Measures(clip, groups, minimum, m)
    requires Measures(Trimmed(clip, BoundaryTrims(clip, m, settings, rate)), groups, minimum, n)
    ensures BoundaryTrims(Trimmed(clip, BoundaryTrims(clip, m, settings, rate)), n, settings, rate) == []
  {
    var head := if m.headAir >= MinimumAir(settings) then HeadPart(clip, m, settings, rate) else [];
    var tail := if m.tailAir >= MinimumAir(settings) then TailPart(clip, m, settings, rate) else [];
    TrimmedIs(clip, head, tail, m, settings, rate);
    CutsKeepFrames(m, settings, rate);
    MeasuresAgain(clip, Trimmed(clip, head + tail), groups, minimum, m, n, HeadCut(m, settings, rate), TailCut(m, settings, rate));
  }

  /** A junction's trims are as safe on each side. */
  lemma JunctionTrimsAreSafe(left: Clip, leftGroups: seq<Group>, leftMinimum: real, leftM: Measured, leftRate: Rate,
                             right: Clip, rightGroups: seq<Group>, rightMinimum: real, rightM: Measured, rightRate: Rate,
                             settings: Settings)
    requires ValidSettings(settings, leftRate) && ValidSettings(settings, rightRate) && left.id != right.id
    requires Disjoint(leftGroups) && Measures(left, leftGroups, leftMinimum, leftM)
    requires Disjoint(rightGroups) && Measures(right, rightGroups, rightMinimum, rightM)
    ensures var trims := JunctionTrims(left, leftM, leftRate, right, rightM, rightRate, settings);
            var l, r := Trimmed(left, trims), Trimmed(right, trims);
            && l.sourceIn == left.sourceIn && r.End() == right.End()
            && leftM.speechEnd <= l.End() && l.duration > 0.0
            && Speaks(l, leftGroups, leftMinimum) && KeepsGroups(left, l, leftGroups, leftMinimum)
            && r.sourceIn <= rightM.speechStart && r.duration > 0.0
            && Speaks(r, rightGroups, rightMinimum) && KeepsGroups(right, r, rightGroups, rightMinimum)
            && (l.End() != left.End() ==>
                  OnGrid(l.End(), FrameTime(leftRate)) &&
                  Frames(settings.keepFrames, FrameTime(leftRate)) <= l.End() - leftM.speechEnd <
                  Frames(settings.keepFrames, FrameTime(leftRate)) + FrameTime(leftRate))
            && (r.sourceIn != right.sourceIn ==>
                  OnGrid(r.sourceIn, FrameTime(rightRate)) &&
                  Frames(settings.keepFrames, FrameTime(rightRate)) <= rightM.speechStart - r.sourceIn <
                  Frames(settings.keepFrames, FrameTime(rightRate)) + FrameTime(rightRate))
  {
    JunctionSides(left, leftM, leftRate, right, rightM, rightRate, settings);
    var trims := JunctionTrims(left, leftM, leftRate, right, rightM, rightRate, settings);
    CutsKeepFrames(leftM, settings, leftRate);
    CutsKeepFrames(rightM, settings, rightRate);
    var i: nat, j: nat :| MeasuresAt(left, leftGroups, leftMinimum, leftM, i, j);
    var a: nat, b: nat :| MeasuresAt(right, rightGroups, rightMinimum, rightM, a, b);
    SpeechKept(left, Trimmed(left, trims), leftGroups, leftMinimum, leftM, i, j, HeadCut(leftM, settings, leftRate),
               TailCut(leftM, settings, leftRate));
    SpeechKept(right, Trimmed(right, trims), rightGroups, rightMinimum, rightM, a, b, HeadCut(rightM, settings, rightRate),
               TailCut(rightM, settings, rightRate));
  }

  lemma {:induction false} OthersTrims(clip: Clip, trims: seq<Trim>)
    requires forall i :: 0 <= i < |trims| ==> trims[i].clip != clip.id
    ensures Trimmed(clip, trims) == clip
  {
    if trims != [] {
      OthersTrims(clip, trims[..|trims| - 1]);
    }
  }

  lemma {:induction false} TrimsApart(clip: Clip, a: seq<Trim>, b: seq<Trim>)
    requires forall i :: 0 <= i < |b| ==> b[i].clip != clip.id
    ensures Trimmed(clip, a + b) == Trimmed(clip, a)
    ensures |a| <= 1 ==> Trimmed(clip, b + a) == Trimmed(clip, a)
  {
    if b == [] {
      assert a + b == a && b + a == a;
    } else {
      assert (a + b)[..|a + b| - 1] == a + b[..|b| - 1];
      TrimsApart(clip, a, b[..|b| - 1]);
      OthersTrims(clip, b);
      if |a| == 1 {
        assert (b + a)[..|b|] == b && a[..0] == [];
      } else if |a| == 0 {
        assert b + a == b;
      }
    }
  }

  /** A tail trim of the one clip and a head trim of the other. */
  lemma TwoSides(left: Clip, tail: seq<Trim>, tailCut: real, right: Clip, head: seq<Trim>, headCut: real)
    requires left.id != right.id
    requires tail == if tailCut < left.End() then [Trim(left.id, Tail, tailCut - left.End())] else []
    requires head == if headCut > right.sourceIn then [Trim(right.id, Head, headCut - right.sourceIn)] else []
    ensures var l, r := Trimmed(left, tail + head), Trimmed(right, tail + head);
            && l.sourceIn == left.sourceIn && l.End() == (if tailCut < left.End() then tailCut else left.End())
            && r.End() == right.End() && r.sourceIn == (if headCut > right.sourceIn then headCut else right.sourceIn)
  {
    TrimsApart(left, tail, head);
    TrimsApart(right, head, tail);
    TailTrimmed(left, [], tail, tailCut);
    assert [] + tail == tail;
    HeadTrimmed(right, head, headCut);
  }

  /** What the trims of a junction do to each of its clips. */
  lemma JunctionSides(left: Clip, leftM: Measured, leftRate: Rate, right: Clip, rightM: Measured, rightRate: Rate,
                      settings: Settings)
    requires leftRate.num > 0 && leftRate.den > 0 && rightRate.num > 0 && rightRate.den > 0 && left.id != right.id
    ensures var trims := JunctionTrims(left, leftM, leftRate, right, rightM, rightRate, settings);
            var l, r := Trimmed(left, trims), Trimmed(right, trims);
            && IsTrimOf(left, l, HeadCut(leftM, settings, leftRate), TailCut(leftM, settings, leftRate))
            && IsTrimOf(right, r, HeadCut(rightM, settings, rightRate), TailCut(rightM, settings, rightRate))
            && l.sourceIn == left.sourceIn && r.End() == right.End()
            && (leftM.tailAir + rightM.headAir >= MinimumAir(settings) ==>
                  l.End() <= TailCut(leftM, settings, leftRate) && r.sourceIn >= HeadCut(rightM, settings, rightRate))
            && (leftM.tailAir + rightM.headAir < MinimumAir(settings) ==> l == left && r == right)
  {
    if leftM.tailAir + rightM.headAir >= MinimumAir(settings) {
      TwoSides(left, TailPart(left, leftM, settings, leftRate), TailCut(leftM, settings, leftRate),
               right, HeadPart(right, rightM, settings, rightRate), HeadCut(rightM, settings, rightRate));
    }
  }

  lemma JunctionTrimsAreEdges(left: Clip, leftM: Measured, leftRate: Rate, right: Clip, rightM: Measured, rightRate: Rate,
                              settings: Settings)
    requires leftRate.num > 0 && leftRate.den > 0 && rightRate.num > 0 && rightRate.den > 0
    ensures var trims := JunctionTrims(left, leftM, leftRate, right, rightM, rightRate, settings);
            |trims| <= 2 && forall i :: 0 <= i < |trims| ==>
              if trims[i].edge.Tail? then trims[i].clip == left.id && trims[i].delta < 0.0
              else trims[i].clip == right.id && trims[i].delta > 0.0
  {
  }

  /** A junction's trims do what they are for: on both sides together, or on neither. */
  lemma JunctionTrimsAreDone(left: Clip, leftM: Measured, leftRate: Rate, right: Clip, rightM: Measured, rightRate: Rate,
                             settings: Settings)
    requires ValidSettings(settings, leftRate) && ValidSettings(settings, rightRate) && left.id != right.id
    ensures var trims := JunctionTrims(left, leftM, leftRate, right, rightM, rightRate, settings);
            var l, r := Trimmed(left, trims), Trimmed(right, trims);
            && (if 1000.0 * (leftM.tailAir + rightM.headAir) >= settings.minimumMilliseconds as real
                then l.End() - leftM.speechEnd < Frames(settings.keepFrames, FrameTime(leftRate)) + FrameTime(leftRate) &&
                     rightM.speechStart - r.sourceIn < Frames(settings.keepFrames, FrameTime(rightRate)) + FrameTime(rightRate)
                else l == left && r == right)
            && JunctionReportOf(left, leftM, leftRate, right, rightM, rightRate, settings) ==
               JunctionReport(leftM.tailAir, rightM.headAir, left.End() - l.End(), r.sourceIn - right.sourceIn)
  {
    IsEnough(leftM.tailAir + rightM.headAir, settings);
    JunctionSides(left, leftM, leftRate, right, rightM, rightRate, settings);
    CutsKeepFrames(leftM, settings, leftRate);
    CutsKeepFrames(rightM, settings, rightRate);
    if leftM.tailAir + rightM.headAir >= MinimumAir(settings) {
      TwoSides(left, TailPart(left, leftM, settings, leftRate), TailCut(leftM, settings, leftRate),
               right, HeadPart(right, rightM, settings, rightRate), HeadCut(rightM, settings, rightRate));
    }
  }

  /** The right clip moved up to where the left one ends. */
  function Rejoined(left: Clip, right: Clip): Clip {
    right.(timelineIn := left.timelineIn + left.duration)
  }

  /** Where a clip lies on the timeline does not matter to what is measured in it. */
  lemma MeasuresAnywhere(clip: Clip, c: Clip, groups: seq<Group>, minimum: real, m: Measured)
    requires c == clip.(timelineIn := c.timelineIn) && Measures(c, groups, minimum, m)
    ensures Measures(clip, groups, minimum, m)
  {
    var i: nat, j: nat :| MeasuresAt(c, groups, minimum, m, i, j);
    assert forall k :: 0 <= k < |groups| ==> (Sustained(c, groups[k], minimum) <==> Sustained(clip, groups[k], minimum));
    assert MeasuresAt(clip, groups, minimum, m, i, j);
  }

  /** Resolving the trimmed and rejoined junction emits no trim. */
  lemma SecondJunctionPassIsIdle(left: Clip, leftGroups: seq<Group>, leftMinimum: real, leftM: Measured, leftN: Measured,
                                 leftRate: Rate, right: Clip, rightGroups: seq<Group>, rightMinimum: real,
                                 rightM: Measured, rightN: Measured, rightRate: Rate, settings: Settings)
    requires ValidSettings(settings, leftRate) && ValidSettings(settings, rightRate) && left.id != right.id
    requires Disjoint(leftGroups) && Measures(left, leftGroups, leftMinimum, leftM)
    requires Disjoint(rightGroups) && Measures(right, rightGroups, rightMinimum, rightM)
    requires var trims := JunctionTrims(left, leftM, leftRate, right, rightM, rightRate, settings);
             var l := Trimmed(left, trims);
             Measures(l, leftGroups, leftMinimum, leftN) &&
             Measures(Rejoined(l, Trimmed(right, trims)), rightGroups, rightMinimum, rightN)
    ensures var trims := JunctionTrims(left, leftM, leftRate, right, rightM, rightRate, settings);
            var l := Trimmed(left, trims);
            JunctionTrims(l, leftN, leftRate, Rejoined(l, Trimmed(right, trims)), rightN, rightRate, settings) == []
  {
    var trims := JunctionTrims(left, leftM, leftRate, right, rightM, rightRate, settings);
    var l, r := Trimmed(left, trims), Trimmed(right, trims);
    JunctionSides(left, leftM, leftRate, right, rightM, rightRate, settings);
    CutsKeepFrames(leftM, settings, leftRate);
    CutsKeepFrames(rightM, settings, rightRate);
    MeasuresAnywhere(r, Rejoined(l, r), rightGroups, rightMinimum, rightN);
    MeasuresAgain(left, l, leftGroups, leftMinimum, leftM, leftN, HeadCut(leftM, settings, leftRate),
                  TailCut(leftM, settings, leftRate));
    MeasuresAgain(right, r, rightGroups, rightMinimum, rightM, rightN, HeadCut(rightM, settings, rightRate),
                  TailCut(rightM, settings, rightRate));
  }

  // ---- Twice in a row -----------------------------------------------------------------------

  /** The groups used are in order and disjoint if the envelope's own are. */
  lemma UsedAreDisjoint(loudness: Loudness, envelope: Envelope, settings: Settings)
    requires GroupsUsed(loudness, envelope, settings).Some? && Disjoint(envelope.groups)
    ensures Disjoint(GroupsUsed(loudness, envelope, settings).value)
  {
    var t := settings.thresholds;
    if GroupsUsed(loudness, envelope, settings) != Some(envelope.groups) {
      GroupsAreDisjoint(loudness, envelope.levels, envelope.windowsPerSecond, envelope.speechLevel, envelope.noiseFloor, t);
    }
  }

  lemma {:induction false} TrimmedKeepsIdentity(clip: Clip, trims: seq<Trim>)
    ensures var c := Trimmed(clip, trims); c.id == clip.id && c.source == clip.source && c.timelineIn == clip.timelineIn
  {
    if trims != [] {
      TrimmedKeepsIdentity(clip, trims[..|trims| - 1]);
    }
  }

  /** Whatever a clip's trims were, resolving it again after they are applied is accepted and emits none. */
  method ResolveTwice(loudness: Loudness, clip: Clip, envelope: Envelope, settings: Settings, rate: Rate)
    returns (first: Result<(seq<Trim>, Report)>, second: Result<(seq<Trim>, Report)>)
    requires Disjoint(envelope.groups)
    ensures first.Ok? ==> second.Ok? && second.value.0 == []
  {
    ghost var m, n;
    first, m := ResolveBoundaryAir(loudness, clip, envelope, settings, rate);
    second := first;
    if first.Ok? {
      UsedAreDisjoint(loudness, envelope, settings);
      ghost var groups, minimum := GroupsUsed(loudness, envelope, settings).value, MinimumGroup(envelope, settings);
      TrimsAreSafe(clip, groups, minimum, m, settings, rate);
      TrimmedKeepsIdentity(clip, first.value.0);
      second, n := ResolveBoundaryAir(loudness, Trimmed(clip, first.value.0), envelope, settings, rate);
      SecondPassIsIdle(clip, groups, minimum, m, n, settings, rate);
    }
  }

  /** The same for a junction whose clips are trimmed and rejoined. */
  method ResolveJunctionTwice(loudness: Loudness, left: Clip, leftEnvelope: Envelope, leftRate: Rate,
                              right: Clip, rightEnvelope: Envelope, rightRate: Rate, settings: Settings)
    returns (first: Result<(seq<Trim>, JunctionReport)>, second: Result<(seq<Trim>, JunctionReport)>)
    requires Disjoint(leftEnvelope.groups) && Disjoint(rightEnvelope.groups) && left.id != right.id
    ensures first.Ok? ==> second.Ok? && second.value.0 == []
  {
    ghost var leftM, rightM, leftN, rightN;
    first, leftM, rightM := ResolveJunctionAir(loudness, left, leftEnvelope, leftRate, right, rightEnvelope, rightRate,
                                               settings);
    second := first;
    if first.Ok? {
      UsedAreDisjoint(loudness, leftEnvelope, settings);
      UsedAreDisjoint(loudness, rightEnvelope, settings);
      ghost var lg, rg := GroupsUsed(loudness, leftEnvelope, settings).value,
                          GroupsUsed(loudness, rightEnvelope, settings).value;
      ghost var lm, rm := MinimumGroup(leftEnvelope, settings), MinimumGroup(rightEnvelope, settings);
      var trims := first.value.0;
      var l, r := Trimmed(left, trims), Trimmed(right, trims);
      JunctionTrimsAreSafe(left, lg, lm, leftM, leftRate, right, rg, rm, rightM, rightRate, settings);
      TrimmedKeepsIdentity(left, trims);
      TrimmedKeepsIdentity(right, trims);
      SpeaksAnywhere(r, Rejoined(l, r), rg, rm);
      second, leftN, rightN := ResolveJunctionAir(loudness, l, leftEnvelope, leftRate, Rejoined(l, r), rightEnvelope,
                                                  rightRate, settings);
      SecondJunctionPassIsIdle(left, lg, lm, leftM, leftN, leftRate, right, rg, rm, rightM, rightN, rightRate, settings);
    }
  }

  lemma SpeaksAnywhere(clip: Clip, c: Clip, groups: seq<Group>, minimum: real)
    requires c == clip.(timelineIn := c.timelineIn) && Speaks(clip, groups, minimum)
    ensures Speaks(c, groups, minimum)
  {
    var i :| 0 <= i < |groups| && Sustained(clip, groups[i], minimum);
    assert Sustained(c, groups[i], minimum);
  }
}
