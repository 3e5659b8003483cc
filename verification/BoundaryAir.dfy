/**
 Trimming the silence at the edges of a clip down to a number of source
 frames, measured from groups of speech. Times are exact; a source frame
 lasts den/num seconds.
 */
module BoundaryAir {
  import opened Options
  import opened SpeechGroups

  type Id = nat

  datatype Result<+T> = Ok(value: T) | Err(problem: Problem)

  datatype Problem =
    | InvalidRate | NegativeKeep | TooManyFrames | NoMinimum | NoSustain
    | WrongSource | NoGrid | NoGroups | NoSpeech | NotAJunction

  datatype Clip = Clip(id: Id, source: Id, sourceIn: real, duration: real, timelineIn: real)
  {
    function End(): real {
      sourceIn + duration
    }
  }

  /** A measured source, with the groups found in it and the thresholds they were found with. */
  datatype Envelope = Envelope(media: Id, windowsPerSecond: nat, levels: seq<int>, speechLevel: int, noiseFloor: int,
                               groups: seq<Group>, gapMilliseconds: int, floorDb: int)

  datatype Settings = Settings(keepFrames: int, minimumMilliseconds: int, thresholds: Thresholds)

  datatype Rate = Rate(num: int, den: int)

  datatype Measured = Measured(headAir: real, tailAir: real, speechStart: real, speechEnd: real)

  datatype Edge = Head | Tail

  datatype Trim = Trim(clip: Id, edge: Edge, delta: real)

  datatype Report = Report(headAir: real, tailAir: real, headRemoved: real, tailRemoved: real)

  datatype JunctionReport = JunctionReport(leftTailAir: real, rightHeadAir: real, leftRemoved: real, rightRemoved: real)

  // ---- The frame grid ------------------------------------------------------------------

  function FrameTime(rate: Rate): (f: real)
    requires rate.num > 0 && rate.den > 0
    ensures f > 0.0
  {
    rate.den as real / rate.num as real
  }

  /** A number of frames, as a time. */
  function Frames(k: int, f: real): real {
    k as real * f
  }

  /** The frame that contains a time, or the first that is not before it. */
  function RoundToSourceFrame(t: real, rate: Rate, up: bool): real
    requires rate.num > 0 && rate.den > 0
  {
    var f := FrameTime(rate);
    var k := (t / f).Floor;
    Frames(if up && Frames(k, f) < t then k + 1 else k, f)
  }

  lemma Distribute(a: real, b: real, f: real)
    ensures (a + b) * f == a * f + b * f
  {
  }

  lemma Less(d: real, f: real)
    requires 0.0 <= d < 1.0 && f > 0.0
    ensures 0.0 <= d * f < f
  {
  }

  lemma Same(a: real, b: real, f: real)
    requires a == b
    ensures a * f == b * f
  {
  }

  lemma Within(t: real, f: real, q: real, low: real)
    requires f > 0.0 && q * f == t && low <= q < low + 1.0
    ensures low * f <= t < low * f + f
  {
    var d := q - low;
    Distribute(low, d, f);
    Less(d, f);
    Same(low + d, q, f);
    var a, b := low * f, d * f;
    assert t == a + b;
  }

  lemma FloorBounds(t: real, f: real)
    requires f > 0.0
    ensures var k := (t / f).Floor; Frames(k, f) <= t < Frames(k, f) + f
  {
    var q := t / f;
    Within(t, f, q, q.Floor as real);
  }

  lemma NextFrame(k: int, f: real)
    ensures Frames(k + 1, f) == Frames(k, f) + f
  {
  }

  /** As many frames as the rate's numerator last as many seconds as its denominator. */
  lemma FramesLast(k: int, rate: Rate)
    requires rate.num > 0 && rate.den > 0
    ensures Frames(k, FrameTime(rate)) * rate.num as real == (k * rate.den) as real
  {
    var f := FrameTime(rate);
    assert f * rate.num as real == rate.den as real;
    calc {
      Frames(k, f) * rate.num as real;
      k as real * (f * rate.num as real);
      (k * rate.den) as real;
    }
  }

  /** A time on the grid of the source's frames. */
  ghost predicate OnGrid(t: real, f: real) {
    exists k: int :: t == Frames(k, f)
  }

  /** Rounding moves a time to the grid of frames by less than a frame, down or up as asked. */
  lemma Rounding(t: real, rate: Rate)
    requires rate.num > 0 && rate.den > 0
    ensures OnGrid(RoundToSourceFrame(t, rate, false), FrameTime(rate)) &&
            OnGrid(RoundToSourceFrame(t, rate, true), FrameTime(rate))
    ensures var down, up, f := RoundToSourceFrame(t, rate, false), RoundToSourceFrame(t, rate, true), FrameTime(rate);
            down <= t < down + f && up - f < t <= up
  {
    var f := FrameTime(rate);
    var k := (t / f).Floor;
    FloorBounds(t, f);
    NextFrame(k, f);
  }

  // ---- Measuring ---------------------------------------------------------------------------

  function ClippedStart(clip: Clip, g: Group): real {
    if g.start < clip.sourceIn then clip.sourceIn else g.start
  }

  function ClippedEnd(clip: Clip, g: Group): real {
    if g.end > clip.End() then clip.End() else g.end
  }

  /** Enough of the group is in the clip to count as speech. */
  predicate Sustained(clip: Clip, g: Group, minimum: real) {
    ClippedEnd(clip, g) > ClippedStart(clip, g) && ClippedEnd(clip, g) - ClippedStart(clip, g) >= minimum
  }

  /** An instant of the clip at which the group speaks. */
  ghost predicate SpeaksAt(clip: Clip, g: Group, t: real) {
    clip.sourceIn <= t < clip.End() && g.start <= t < g.end
  }

  /** The part of a group is what the group and the clip share. */
  lemma PartIsShared(clip: Clip, g: Group, t: real)
    ensures SpeaksAt(clip, g, t) <==> ClippedStart(clip, g) <= t < ClippedEnd(clip, g)
  {
  }

  ghost predicate IsFirst(clip: Clip, groups: seq<Group>, minimum: real, i: nat) {
    i < |groups| && Sustained(clip, groups[i], minimum) && forall k :: 0 <= k < i ==> !Sustained(clip, groups[k], minimum)
  }

  ghost predicate IsLast(clip: Clip, groups: seq<Group>, minimum: real, j: nat) {
    j < |groups| && Sustained(clip, groups[j], minimum) &&
    forall k :: j < k < |groups| ==> !Sustained(clip, groups[k], minimum)
  }

  /** From the first sustained group to the last. */
  ghost predicate MeasuresAt(clip: Clip, groups: seq<Group>, minimum: real, m: Measured, i: nat, j: nat) {
    && IsFirst(clip, groups, minimum, i)
    && IsLast(clip, groups, minimum, j)
    && m == Measured(ClippedStart(clip, groups[i]) - clip.sourceIn, clip.End() - ClippedEnd(clip, groups[j]),
                     ClippedStart(clip, groups[i]), ClippedEnd(clip, groups[j]))
  }

  ghost predicate Measures(clip: Clip, groups: seq<Group>, minimum: real, m: Measured) {
    exists i: nat, j: nat :: MeasuresAt(clip, groups, minimum, m, i, j)
  }

  function MinimumGroup(envelope: Envelope, settings: Settings): real
    requires envelope.windowsPerSecond > 0
  {
    settings.thresholds.sustainWindows as real / envelope.windowsPerSecond as real
  }

  /** Some group of speech is sustained in the clip. */
  ghost predicate Speaks(clip: Clip, groups: seq<Group>, minimum: real) {
    exists i :: 0 <= i < |groups| && Sustained(clip, groups[i], minimum)
  }

  predicate Usable(clip: Clip, envelope: Envelope) {
    clip.source == envelope.media && envelope.windowsPerSecond > 0 && envelope.levels != []
  }

  /** The envelope was grouped with these thresholds. */
  ghost predicate HasGroups(envelope: Envelope, t: Thresholds) {
    envelope.groups != [] && envelope.gapMilliseconds == t.gapMilliseconds && envelope.floorDb == t.floorDb
  }

  /** The envelope's own groups, unless it has none or they were found with other thresholds. */
  function GroupsUsed(loudness: Loudness, envelope: Envelope, settings: Settings): Option<seq<Group>> {
    var t := settings.thresholds;
    if envelope.groups == [] || envelope.gapMilliseconds != t.gapMilliseconds || envelope.floorDb != t.floorDb
    then GroupsFrom(loudness, envelope.levels, envelope.windowsPerSecond, envelope.speechLevel, envelope.noiseFloor, t)
    else Some(envelope.groups)
  }

  /** A group counts when its part in the clip lasts as many windows of the envelope as are asked for. */
  lemma SustainedIff(clip: Clip, g: Group, envelope: Envelope, settings: Settings)
    requires envelope.windowsPerSecond > 0 && settings.thresholds.sustainWindows > 0
    ensures Sustained(clip, g, MinimumGroup(envelope, settings)) <==>
            (ClippedEnd(clip, g) - ClippedStart(clip, g)) * envelope.windowsPerSecond as real >=
            settings.thresholds.sustainWindows as real
  {
    var length, grid := ClippedEnd(clip, g) - ClippedStart(clip, g), envelope.windowsPerSecond as real;
    var least := MinimumGroup(envelope, settings);
    assert least * grid == settings.thresholds.sustainWindows as real && least > 0.0;
    if length >= least {
      assert (length - least) * grid >= 0.0;
    } else {
      assert (least - length) * grid > 0.0;
    }
  }

  /** Groups found once and kept are the groups that would be found again. */
  lemma KeptGroupsAreFound(loudness: Loudness, envelope: Envelope, settings: Settings)
    requires GroupsFrom(loudness, envelope.levels, envelope.windowsPerSecond, envelope.speechLevel, envelope.noiseFloor,
                        settings.thresholds.(gapMilliseconds := envelope.gapMilliseconds, floorDb := envelope.floorDb)) ==
             Some(envelope.groups)
    ensures GroupsUsed(loudness, envelope, settings) ==
            GroupsFrom(loudness, envelope.levels, envelope.windowsPerSecond, envelope.speechLevel, envelope.noiseFloor,
                       settings.thresholds)
  {
    var t := settings.thresholds;
    assert envelope.gapMilliseconds == t.gapMilliseconds && envelope.floorDb == t.floorDb ==>
      t.(gapMilliseconds := envelope.gapMilliseconds, floorDb := envelope.floorDb) == t;
  }

  /** The clip can be measured: its own envelope, groups, and sustained speech in it. */
  ghost predicate Measurable(loudness: Loudness, clip: Clip, envelope: Envelope, settings: Settings) {
    Usable(clip, envelope) && GroupsUsed(loudness, envelope, settings).Some? &&
    Speaks(clip, GroupsUsed(loudness, envelope, settings).value, MinimumGroup(envelope, settings))
  }

  ghost predicate MeasuresIn(loudness: Loudness, clip: Clip, envelope: Envelope, settings: Settings, m: Measured)
    requires Measurable(loudness, clip, envelope, settings)
  {
    Measures(clip, GroupsUsed(loudness, envelope, settings).value, MinimumGroup(envelope, settings), m)
  }

  method MeasureBoundaries(loudness: Loudness, clip: Clip, envelope: Envelope, settings: Settings)
    returns (r: Result<Measured>)
    ensures r.Ok? <==> Measurable(loudness, clip, envelope, settings)
    ensures r.Ok? ==> MeasuresIn(loudness, clip, envelope, settings, r.value)
    ensures r.Ok? && HasGroups(envelope, settings.thresholds) ==>
              Measures(clip, envelope.groups, MinimumGroup(envelope, settings), r.value)
    ensures r == Err(WrongSource) <==> clip.source != envelope.media
    ensures r == Err(NoGrid) <==> clip.source == envelope.media && (envelope.windowsPerSecond == 0 || envelope.levels == [])
    ensures r == Err(NoGroups) <==> Usable(clip, envelope) && GroupsUsed(loudness, envelope, settings).None?
    ensures r.Err? ==> r.problem in {WrongSource, NoGrid, NoGroups, NoSpeech}
  {
    if clip.source != envelope.media {
      return Err(WrongSource);
    }
    if envelope.windowsPerSecond == 0 || envelope.levels == [] {
      return Err(NoGrid);
    }
    var groups, t := envelope.groups, settings.thresholds;
    if groups == [] || envelope.gapMilliseconds != t.gapMilliseconds || envelope.floorDb != t.floorDb {
      var rebuilt := BuildSpeechGroups(loudness, envelope.levels, envelope.windowsPerSecond, envelope.speechLevel,
                                       envelope.noiseFloor, t);
      if rebuilt.None? {
        return Err(NoGroups);
      }
      groups := rebuilt.value;
    }
    r := MeasureGroups(clip, groups, MinimumGroup(envelope, settings));
  }

  /** The loop over the groups. */
  method MeasureGroups(clip: Clip, groups: seq<Group>, minimum: real) returns (r: Result<Measured>)
    ensures r.Ok? <==> Speaks(clip, groups, minimum)
    ensures r.Ok? ==> Measures(clip, groups, minimum, r.value)
    ensures r.Err? ==> r.problem == NoSpeech
  {
    var found, speechStart, speechEnd := false, 0.0, 0.0;
    ghost var first, last := 0, 0;
    for i := 0 to |groups|
      invariant !found ==> forall k :: 0 <= k < i ==> !Sustained(clip, groups[k], minimum)
      invariant found ==> IsFirst(clip, groups, minimum, first) && speechStart == ClippedStart(clip, groups[first])
      invariant found ==> first <= last < i && Sustained(clip, groups[last], minimum) &&
                          speechEnd == ClippedEnd(clip, groups[last]) &&
                          forall k :: last < k < i ==> !Sustained(clip, groups[k], minimum)
    {
      var start, end := ClippedStart(clip, groups[i]), ClippedEnd(clip, groups[i]);
      if end <= start || end - start < minimum {
        continue;
      }
      if !found {
        speechStart := start;
        first := i;
      }
      speechEnd := end;
      last := i;
      found := true;
    }
    if !found {
      return Err(NoSpeech);
    }
    assert IsLast(clip, groups, minimum, last);
    ghost var m := Measured(speechStart - clip.sourceIn, clip.End() - speechEnd, speechStart, speechEnd);
    assert MeasuresAt(clip, groups, minimum, m, first, last);
    return Ok(Measured(speechStart - clip.sourceIn, clip.End() - speechEnd, speechStart, speechEnd));
  }

  // ---- Trims -----------------------------------------------------------------------------------

  const INT64_MAX := 0x7fff_ffff_ffff_ffff

  predicate ValidSettings(settings: Settings, rate: Rate) {
    rate.num > 0 && rate.den > 0 && settings.keepFrames >= 0 && settings.keepFrames * rate.den <= INT64_MAX &&
    settings.minimumMilliseconds > 0 && settings.thresholds.sustainWindows > 0
  }

  /** The first requirement that is not met. */
  method ValidateSettings(settings: Settings, rate: Rate) returns (r: Option<Problem>)
    ensures r.None? <==> ValidSettings(settings, rate)
    ensures r == Some(InvalidRate) <==> rate.num <= 0 || rate.den <= 0
    ensures r == Some(NegativeKeep) <==> rate.num > 0 && rate.den > 0 && settings.keepFrames < 0
    ensures r == Some(TooManyFrames) <==>
              rate.num > 0 && rate.den > 0 && settings.keepFrames >= 0 && settings.keepFrames * rate.den > INT64_MAX
    ensures r == Some(NoMinimum) <==> rate.num > 0 && rate.den > 0 && settings.keepFrames >= 0 &&
                                      settings.keepFrames * rate.den <= INT64_MAX && settings.minimumMilliseconds <= 0
    ensures r == Some(NoSustain) <==> rate.num > 0 && rate.den > 0 && settings.keepFrames >= 0 &&
                                      settings.keepFrames * rate.den <= INT64_MAX && settings.minimumMilliseconds > 0 &&
                                      settings.thresholds.sustainWindows <= 0
    ensures r.Some? ==> r.value in {InvalidRate, NegativeKeep, TooManyFrames, NoMinimum, NoSustain}
  {
    if rate.num <= 0 || rate.den <= 0 {
      return Some(InvalidRate);
    }
    if settings.keepFrames < 0 {
      return Some(NegativeKeep);
    }
    if settings.keepFrames * rate.den > INT64_MAX {
      return Some(TooManyFrames);
    }
    if settings.minimumMilliseconds <= 0 {
      return Some(NoMinimum);
    }
    if settings.thresholds.sustainWindows <= 0 {
      return Some(NoSustain);
    }
    return None;
  }

  /** Where the head is cut: that many frames before the frame in which speech starts. */
  function HeadCut(m: Measured, settings: Settings, rate: Rate): real
    requires rate.num > 0 && rate.den > 0
  {
    RoundToSourceFrame(m.speechStart, rate, false) - Frames(settings.keepFrames, FrameTime(rate))
  }

  /** Where the tail is cut: that many frames after the frame in which speech ends. */
  function TailCut(m: Measured, settings: Settings, rate: Rate): real
    requires rate.num > 0 && rate.den > 0
  {
    RoundToSourceFrame(m.speechEnd, rate, true) + Frames(settings.keepFrames, FrameTime(rate))
  }

  method HeadTrim(clip: Clip, m: Measured, settings: Settings, rate: Rate) returns (trim: Option<Trim>, removed: real)
    requires rate.num > 0 && rate.den > 0
    ensures trim == if HeadCut(m, settings, rate) > clip.sourceIn
                    then Some(Trim(clip.id, Head, HeadCut(m, settings, rate) - clip.sourceIn)) else None
    ensures removed == if trim.Some? then trim.value.delta else 0.0
  {
    var cutEnd := RoundToSourceFrame(m.speechStart, rate, false) - Frames(settings.keepFrames, FrameTime(rate));
    if cutEnd <= clip.sourceIn {
      return None, 0.0;
    }
    removed := cutEnd - clip.sourceIn;
    trim := Some(Trim(clip.id, Head, removed));
  }

  method TailTrim(clip: Clip, m: Measured, settings: Settings, rate: Rate) returns (trim: Option<Trim>, removed: real)
    requires rate.num > 0 && rate.den > 0
    ensures trim == if TailCut(m, settings, rate) < clip.End()
                    then Some(Trim(clip.id, Tail, TailCut(m, settings, rate) - clip.End())) else None
    ensures removed == if trim.Some? then -trim.value.delta else 0.0
  {
    var cutStart := RoundToSourceFrame(m.speechEnd, rate, true) + Frames(settings.keepFrames, FrameTime(rate));
    if cutStart >= clip.End() {
      return None, 0.0;
    }
    removed := clip.End() - cutStart;
    trim := Some(Trim(clip.id, Tail, -removed));
  }

  function MinimumAir(settings: Settings): real {
    settings.minimumMilliseconds as real / 1000.0
  }

  /** What the trims of a clip leave of it. */
  function Trimmed(clip: Clip, trims: seq<Trim>): Clip {
    if trims == [] then clip
    else
      var c, t := Trimmed(clip, trims[..|trims| - 1]), trims[|trims| - 1];
      if t.clip != clip.id then c
      else if t.edge.Head? then c.(sourceIn := c.sourceIn + t.delta, duration := c.duration - t.delta)
      else c.(duration := c.duration + t.delta)
  }

  function HeadPart(clip: Clip, m: Measured, settings: Settings, rate: Rate): seq<Trim>
    requires rate.num > 0 && rate.den > 0
  {
    if HeadCut(m, settings, rate) > clip.sourceIn
    then [Trim(clip.id, Head, HeadCut(m, settings, rate) - clip.sourceIn)] else []
  }

  function TailPart(clip: Clip, m: Measured, settings: Settings, rate: Rate): seq<Trim>
    requires rate.num > 0 && rate.den > 0
  {
    if TailCut(m, settings, rate) < clip.End() then [Trim(clip.id, Tail, TailCut(m, settings, rate) - clip.End())] else []
  }

  /** How much of a clip its head trim removes. */
  function HeadRemoved(clip: Clip, m: Measured, settings: Settings, rate: Rate): real
    requires rate.num > 0 && rate.den > 0
  {
    if HeadCut(m, settings, rate) > clip.sourceIn then HeadCut(m, settings, rate) - clip.sourceIn else 0.0
  }

  function TailRemoved(clip: Clip, m: Measured, settings: Settings, rate: Rate): real
    requires rate.num > 0 && rate.den > 0
  {
    if TailCut(m, settings, rate) < clip.End() then clip.End() - TailCut(m, settings, rate) else 0.0
  }

  /** An edge is trimmed when its air is at least the minimum and longer than what is kept. */
  function BoundaryTrims(clip: Clip, m: Measured, settings: Settings, rate: Rate): seq<Trim>
    requires rate.num > 0 && rate.den > 0
  {
    (if m.headAir >= MinimumAir(settings) then HeadPart(clip, m, settings, rate) else []) +
    (if m.tailAir >= MinimumAir(settings) then TailPart(clip, m, settings, rate) else [])
  }

  /** The air found at each edge, and how much of it is removed. */
  function BoundaryReport(clip: Clip, m: Measured, settings: Settings, rate: Rate): Report
    requires rate.num > 0 && rate.den > 0
  {
    Report(m.headAir, m.tailAir,
           if m.headAir >= MinimumAir(settings) then HeadRemoved(clip, m, settings, rate) else 0.0,
           if m.tailAir >= MinimumAir(settings) then TailRemoved(clip, m, settings, rate) else 0.0)
  }

  method ResolveBoundaryAir(loudness: Loudness, clip: Clip, envelope: Envelope, settings: Settings, rate: Rate)
    returns (r: Result<(seq<Trim>, Report)>, ghost m: Measured)
    ensures r.Ok? <==> ValidSettings(settings, rate) && Measurable(loudness, clip, envelope, settings)
    ensures r.Ok? ==> MeasuresIn(loudness, clip, envelope, settings, m) &&
                      r.value.0 == BoundaryTrims(clip, m, settings, rate) &&
                      r.value.1 == BoundaryReport(clip, m, settings, rate)
  {
    m := Measured(0.0, 0.0, 0.0, 0.0);
    var problem := ValidateSettings(settings, rate);
    if problem.Some? {
      return Err(problem.value), m;
    }
    var measured := MeasureBoundaries(loudness, clip, envelope, settings);
    if measured.Err? {
      return Err(measured.problem), m;
    }
    var trims: seq<Trim> := [];
    var report := Report(measured.value.headAir, measured.value.tailAir, 0.0, 0.0);
    if measured.value.headAir >= MinimumAir(settings) {
      var trim, removed := HeadTrim(clip, measured.value, settings, rate);
      report := report.(headRemoved := removed);
      if trim.Some? {
        trims := trims + [trim.value];
      }
    }
    if measured.value.tailAir >= MinimumAir(settings) {
      var trim, removed := TailTrim(clip, measured.value, settings, rate);
      report := report.(tailRemoved := removed);
      if trim.Some? {
        trims := trims + [trim.value];
      }
    }
    return Ok((trims, report)), measured.value;
  }

  /** Both edges of a junction when their air together is at least the minimum. */
  function JunctionTrims(left: Clip, leftM: Measured, leftRate: Rate, right: Clip, rightM: Measured, rightRate: Rate,
                         settings: Settings): seq<Trim>
    requires leftRate.num > 0 && leftRate.den > 0 && rightRate.num > 0 && rightRate.den > 0
  {
    if leftM.tailAir + rightM.headAir < MinimumAir(settings) then []
    else TailPart(left, leftM, settings, leftRate) + HeadPart(right, rightM, settings, rightRate)
  }

  function JunctionReportOf(left: Clip, leftM: Measured, leftRate: Rate, right: Clip, rightM: Measured, rightRate: Rate,
                            settings: Settings): JunctionReport
    requires leftRate.num > 0 && leftRate.den > 0 && rightRate.num > 0 && rightRate.den > 0
  {
    if leftM.tailAir + rightM.headAir < MinimumAir(settings) then JunctionReport(leftM.tailAir, rightM.headAir, 0.0, 0.0)
    else JunctionReport(leftM.tailAir, rightM.headAir, TailRemoved(left, leftM, settings, leftRate),
                        HeadRemoved(right, rightM, settings, rightRate))
  }

  method ResolveJunctionAir(loudness: Loudness, left: Clip, leftEnvelope: Envelope, leftRate: Rate,
                            right: Clip, rightEnvelope: Envelope, rightRate: Rate, settings: Settings)
    returns (r: Result<(seq<Trim>, JunctionReport)>, ghost leftM: Measured, ghost rightM: Measured)
    ensures r == Err(NotAJunction) <==> ValidSettings(settings, leftRate) && ValidSettings(settings, rightRate) &&
                                        left.timelineIn + left.duration != right.timelineIn
    ensures r.Ok? <==> ValidSettings(settings, leftRate) && ValidSettings(settings, rightRate) &&
                       left.timelineIn + left.duration == right.timelineIn &&
                       Measurable(loudness, left, leftEnvelope, settings) &&
                       Measurable(loudness, right, rightEnvelope, settings)
    ensures r.Ok? ==> MeasuresIn(loudness, left, leftEnvelope, settings, leftM) &&
                      MeasuresIn(loudness, right, rightEnvelope, settings, rightM) &&
                      r.value.0 == JunctionTrims(left, leftM, leftRate, right, rightM, rightRate, settings) &&
                      r.value.1 == JunctionReportOf(left, leftM, leftRate, right, rightM, rightRate, settings)
  {
    leftM, rightM := Measured(0.0, 0.0, 0.0, 0.0), Measured(0.0, 0.0, 0.0, 0.0);
    var problem := ValidateSettings(settings, leftRate);
    if problem.None? {
      problem := ValidateSettings(settings, rightRate);
    }
    if problem.Some? {
      return Err(problem.value), leftM, rightM;
    }
    if left.timelineIn + left.duration != right.timelineIn {
      return Err(NotAJunction), leftM, rightM;
    }
    var l := MeasureBoundaries(loudness, left, leftEnvelope, settings);
    if l.Err? {
      return Err(l.problem), leftM, rightM;
    }
    var r2 := MeasureBoundaries(loudness, right, rightEnvelope, settings);
    if r2.Err? {
      return Err(r2.problem), leftM, rightM;
    }
    leftM, rightM := l.value, r2.value;
    var report := JunctionReport(l.value.tailAir, r2.value.headAir, 0.0, 0.0);
    if report.leftTailAir + report.rightHeadAir < MinimumAir(settings) {
      return Ok(([], report)), leftM, rightM;
    }
    var trims: seq<Trim> := [];
    var trim, removed := TailTrim(left, l.value, settings, leftRate);
    report := report.(leftRemoved := removed);
    if trim.Some? {
      trims := trims + [trim.value];
    }
    trim, removed := HeadTrim(right, r2.value, settings, rightRate);
    report := report.(rightRemoved := removed);
    if trim.Some? {
      trims := trims + [trim.value];
    }
    return Ok((trims, report)), leftM, rightM;
  }
}
