/**
 Flattening a timeline to the source frame behind each of its frames, and
 rewriting a montage cut on the flattened render onto the sources. The
 rewriting splits clips at joins and keeps, frame by frame, what is shown
 when.
 */
module Remap {
  import opened Sequences

  datatype Result<+T, +E> = Ok(value: T) | Err(error: E)

  /** A source file, or nothing on disk. */
  datatype Source = File(path: string) | NoFile

  datatype Item = Item(start: int, end: int, duration: int, sourceStart: int, source: Source)

  datatype Segment = Segment(recordStart: int, recordEnd: int, sourceStart: int, path: string)

  datatype Flattening = Flattening(rate: int, duration: int, segments: seq<Segment>)

  datatype FlattenProblem = NoClips | SeveralTracks | Retimed(at: nat) | Gap(at: nat) | Unmapped(at: nat)

  datatype Clip = Clip(start: int, end: int, record: int, layer: int, audio: bool)

  datatype Piece = Piece(path: string, start: int, end: int, record: int, layer: int, audio: bool)

  datatype Montage = Montage(schema: string, rateNum: int, rateDen: int, clips: seq<Clip>)

  datatype RemapProblem = WrongSchema | WrongRate | OutsideMap(clip: nat) | NothingToRemap

  // ---- Flattening --------------------------------------------------------------------

  /** Where the first items end. */
  function CursorAt(origin: int, items: seq<Item>, i: nat): int
    requires i <= |items|
  {
    if i == 0 then origin else items[i - 1].end
  }

  /** Played at normal speed, straight after what is before it, from a file. */
  ghost predicate Mappable(origin: int, items: seq<Item>, i: nat)
    requires i < |items|
  {
    && items[i].end - items[i].start == items[i].duration
    && items[i].start == CursorAt(origin, items, i)
    && items[i].source.File? && items[i].source.path != ""
  }

  function SegmentOf(origin: int, item: Item): Segment {
    Segment(item.start - origin, item.end - origin, item.sourceStart, if item.source.File? then item.source.path else "")
  }

  /** The segments of the first items. */
  ghost predicate AreSegments(origin: int, items: seq<Item>, segments: seq<Segment>) {
    |segments| <= |items| &&
    forall i :: 0 <= i < |segments| ==> Mappable(origin, items, i) && segments[i] == SegmentOf(origin, items[i])
  }

  /** The first item that cannot be mapped, and why. */
  ghost predicate IsRefusal(origin: int, items: seq<Item>, p: FlattenProblem) {
    match p
    case Retimed(at) => FirstUnmappable(origin, items, at) && items[at].end - items[at].start != items[at].duration
    case Gap(at) =>
      FirstUnmappable(origin, items, at) && items[at].end - items[at].start == items[at].duration &&
      items[at].start != CursorAt(origin, items, at)
    case Unmapped(at) =>
      FirstUnmappable(origin, items, at) && items[at].end - items[at].start == items[at].duration &&
      items[at].start == CursorAt(origin, items, at) && (items[at].source.NoFile? || items[at].source.path == "")
    case _ => false
  }

  ghost predicate FirstUnmappable(origin: int, items: seq<Item>, at: nat) {
    at < |items| && !Mappable(origin, items, at) && forall i :: 0 <= i < at ==> Mappable(origin, items, i)
  }

  /** An item is mappable when it plays at normal speed from a file, starting at the origin or where the one before ends. */
  lemma MappableIff(origin: int, items: seq<Item>, i: nat)
    requires i < |items|
    ensures Mappable(origin, items, i) <==>
              && items[i].end - items[i].start == items[i].duration
              && items[i].start == (if i == 0 then origin else items[i - 1].end)
              && items[i].source.File? && items[i].source.path != ""
  {
  }

  /** Every item plays at normal speed, right behind the one before it or the origin, from a named file. */
  method FlattenItems(origin: int, items: seq<Item>) returns (r: Result<seq<Segment>, FlattenProblem>)
    ensures r.Ok? <==> forall i :: 0 <= i < |items| ==> Mappable(origin, items, i)
    ensures r.Ok? ==> |r.value| == |items| && AreSegments(origin, items, r.value)
    ensures r.Err? ==> IsRefusal(origin, items, r.error)
  {
    var segments: seq<Segment> := [];
    var cursor := origin;
    for i := 0 to |items|
      invariant |segments| == i && AreSegments(origin, items, segments)
      invariant cursor == CursorAt(origin, items, i)
    {
      var item := items[i];
      if item.end - item.start != item.duration {
        assert !Mappable(origin, items, i);
        return Err(Retimed(i));
      }
      if item.start != cursor {
        assert !Mappable(origin, items, i);
        return Err(Gap(i));
      }
      var path := if item.source.File? then item.source.path else "";
      if path == "" {
        assert !Mappable(origin, items, i);
        return Err(Unmapped(i));
      }
      segments := segments + [Segment(item.start - origin, item.end - origin, item.sourceStart, path)];
      cursor := item.end;
    }
    return Ok(segments);
  }

  /** The tracks that have items. */
  function Populated(tracks: seq<seq<Item>>): seq<seq<Item>> {
    if tracks == [] then []
    else
      var last := |tracks| - 1;
      Populated(tracks[..last]) + if tracks[last] == [] then [] else [tracks[last]]
  }

  /** The only track with items, if there is one. */
  ghost predicate IsOnly(tracks: seq<seq<Item>>, t: nat) {
    t < |tracks| && tracks[t] != [] && forall u :: 0 <= u < |tracks| && u != t ==> tracks[u] == []
  }

  lemma {:induction false} NonePopulated(tracks: seq<seq<Item>>)
    ensures Populated(tracks) == [] <==> forall u :: 0 <= u < |tracks| ==> tracks[u] == []
  {
    if tracks != [] {
      var last := |tracks| - 1;
      NonePopulated(tracks[..last]);
      forall u | 0 <= u < last
        ensures tracks[..last][u] == tracks[u]
      {
      }
    }
  }

  lemma OnlyInFront(tracks: seq<seq<Item>>, t: nat)
    requires tracks != [] && tracks[|tracks| - 1] == []
    ensures IsOnly(tracks, t) <==> IsOnly(tracks[..|tracks| - 1], t)
  {
    var front := tracks[..|tracks| - 1];
    assert forall u :: 0 <= u < |front| ==> front[u] == tracks[u];
  }

  lemma OnlyLast(tracks: seq<seq<Item>>, t: nat)
    requires tracks != [] && tracks[|tracks| - 1] != []
    ensures IsOnly(tracks, t) <==> t == |tracks| - 1 && Populated(tracks[..|tracks| - 1]) == []
  {
    var front := tracks[..|tracks| - 1];
    NonePopulated(front);
    assert forall u :: 0 <= u < |front| ==> front[u] == tracks[u];
  }

  /** One track is populated exactly when it is the only one with items. */
  lemma {:induction false} OnePopulated(tracks: seq<seq<Item>>)
    ensures |Populated(tracks)| == 1 <==> exists t: nat :: IsOnly(tracks, t)
    ensures forall t: nat :: IsOnly(tracks, t) ==> Populated(tracks) == [tracks[t]]
  {
    if tracks != [] {
      var last := |tracks| - 1;
      OnePopulated(tracks[..last]);
      if tracks[last] == [] {
        forall t: nat ensures IsOnly(tracks, t) <==> IsOnly(tracks[..last], t) {
          OnlyInFront(tracks, t);
        }
      } else {
        forall t: nat ensures IsOnly(tracks, t) <==> t == last && Populated(tracks[..last]) == [] {
          OnlyLast(tracks, t);
        }
        assert IsOnly(tracks, last) <==> Populated(tracks[..last]) == [];
      }
    }
  }

  /** A timeline is flattened when exactly one track has items and each of them is mappable. */
  method FlattenTimeline(origin: int, rate: int, tracks: seq<seq<Item>>) returns (r: Result<Flattening, FlattenProblem>)
    ensures r.Ok? <==> |Populated(tracks)| == 1 &&
                       forall i :: 0 <= i < |Populated(tracks)[0]| ==> Mappable(origin, Populated(tracks)[0], i)
    ensures r.Ok? ==>
              var items := Populated(tracks)[0];
              r.value.rate == rate && |r.value.segments| == |items| && AreSegments(origin, items, r.value.segments) &&
              r.value.duration == CursorAt(origin, items, |items|) - origin
    ensures r == Err(NoClips) <==> Populated(tracks) == []
    ensures r == Err(SeveralTracks) <==> |Populated(tracks)| > 1
    ensures r.Err? && |Populated(tracks)| == 1 ==> IsRefusal(origin, Populated(tracks)[0], r.error)
  {
    var populated: seq<seq<Item>> := [];
    for track := 0 to |tracks|
      invariant populated == Populated(tracks[..track])
    {
      assert tracks[..track + 1][..track] == tracks[..track];
      if |tracks[track]| > 0 {
        populated := populated + [tracks[track]];
      }
    }
    assert tracks[..|tracks|] == tracks;
    if |populated| == 0 {
      return Err(NoClips);
    }
    if |populated| > 1 {
      return Err(SeveralTracks);
    }
    var items := populated[0];
    var segments := FlattenItems(origin, items);
    if segments.Err? {
      return Err(segments.error);
    }
    var duration := if |items| == 0 then 0 else items[|items| - 1].end - origin;
    return Ok(Flattening(rate, duration, segments.value));
  }

  /** Segments that start at zero and follow on from each other, none running backwards. */
  ghost predicate Contiguous(segments: seq<Segment>) {
    forall i :: 0 <= i < |segments| ==>
      segments[i].recordStart == EndOf(segments, i) && segments[i].recordStart <= segments[i].recordEnd
  }

  ghost function EndOf(segments: seq<Segment>, i: nat): int
    requires i <= |segments|
  {
    if i == 0 then 0 else segments[i - 1].recordEnd
  }

  /** A flattened timeline's segments are contiguous exactly when no item has a negative duration. */
  lemma FlattenedIsContiguous(origin: int, items: seq<Item>, segments: seq<Segment>)
    requires AreSegments(origin, items, segments) && |segments| == |items|
    ensures Contiguous(segments) <==> forall i :: 0 <= i < |items| ==> items[i].duration >= 0
  {
    forall i | 0 <= i < |segments|
      ensures segments[i].recordStart == EndOf(segments, i)
      ensures segments[i].recordStart <= segments[i].recordEnd <==> items[i].duration >= 0
    {
      assert Mappable(origin, items, i);
      if i > 0 {
        assert Mappable(origin, items, i - 1);
      }
    }
    if Contiguous(segments) {
      forall i | 0 <= i < |items|
        ensures items[i].duration >= 0
      {
        assert segments[i].recordStart <= segments[i].recordEnd;
      }
    }
  }

  // ---- What is shown -----------------------------------------------------------------

  /** A frame of a source file. */
  datatype Frame = Frame(path: string, number: int)

  /** A source frame shown at a position of the montage. */
  datatype Shot = Shot(record: int, frame: Frame)

  /** Consecutive frames of a file. */
  ghost function Run(path: string, start: int, n: int): (r: seq<Frame>)
    ensures |r| == if n < 0 then 0 else n
    decreases n
  {
    if n <= 0 then [] else Run(path, start, n - 1) + [Frame(path, start + n - 1)]
  }

  lemma {:induction false} RunAt(path: string, start: int, n: int)
    ensures forall k :: 0 <= k < n ==> Run(path, start, n)[k] == Frame(path, start + k)
    decreases n
  {
    if n > 0 {
      RunAt(path, start, n - 1);
    }
  }

  /** The source frame behind each frame of the first segments. */
  ghost function Flat(segments: seq<Segment>): seq<Frame> {
    if segments == [] then []
    else
      var s := segments[|segments| - 1];
      Flat(segments[..|segments| - 1]) + Run(s.path, s.sourceStart, s.recordEnd - s.recordStart)
  }

  /** Frames shown one after the other from a position on. */
  ghost function Laid(frames: seq<Frame>, record: int): (r: seq<Shot>)
    ensures |r| == |frames|
  {
    if frames == [] then []
    else Laid(frames[..|frames| - 1], record) + [Shot(record + |frames| - 1, frames[|frames| - 1])]
  }

  lemma {:induction false} LaidAt(frames: seq<Frame>, record: int)
    ensures forall k :: 0 <= k < |frames| ==> Laid(frames, record)[k] == Shot(record + k, frames[k])
  {
    if frames != [] {
      LaidAt(frames[..|frames| - 1], record);
    }
  }

  ghost function Shown(p: Piece): seq<Shot> {
    Laid(Run(p.path, p.start, p.end - p.start), p.record)
  }

  ghost function ShownAll(pieces: seq<Piece>): seq<Shot> {
    if pieces == [] then [] else ShownAll(pieces[..|pieces| - 1]) + Shown(pieces[|pieces| - 1])
  }

  // ---- Rewriting ----------------------------------------------------------------------

  function Max(a: int, b: int): int {
    if a > b then a else b
  }

  function Min(a: int, b: int): int {
    if a < b then a else b
  }

  /** The part of a clip that falls in a segment, on the segment's source. */
  function PieceOf(clip: Clip, s: Segment): Piece {
    var low, high := Max(clip.start, s.recordStart), Min(clip.end, s.recordEnd);
    var sourceIn := s.sourceStart + (low - s.recordStart);
    Piece(s.path, sourceIn, sourceIn + (high - low), clip.record + (low - clip.start), clip.layer, clip.audio)
  }

  predicate Touches(clip: Clip, s: Segment) {
    Max(clip.start, s.recordStart) < Min(clip.end, s.recordEnd)
  }

  function PiecesOf(clip: Clip, segments: seq<Segment>): seq<Piece> {
    if segments == [] then []
    else
      var s := segments[|segments| - 1];
      PiecesOf(clip, segments[..|segments| - 1]) + if Touches(clip, s) then [PieceOf(clip, s)] else []
  }

  /** How many frames of the clip the segments cover. */
  function Covered(clip: Clip, segments: seq<Segment>): int {
    if segments == [] then 0
    else
      var s := segments[|segments| - 1];
      Covered(clip, segments[..|segments| - 1]) +
      if Touches(clip, s) then Min(clip.end, s.recordEnd) - Max(clip.start, s.recordStart) else 0
  }

  method SplitClip(clip: Clip, segments: seq<Segment>) returns (pieces: seq<Piece>, covered: int)
    ensures pieces == PiecesOf(clip, segments) && covered == Covered(clip, segments)
  {
    pieces, covered := [], 0;
    for i := 0 to |segments|
      invariant pieces == PiecesOf(clip, segments[..i]) && covered == Covered(clip, segments[..i])
    {
      var segment := segments[i];
      assert segments[..i + 1][..i] == segments[..i];
      var low, high := Max(clip.start, segment.recordStart), Min(clip.end, segment.recordEnd);
      if low >= high {
        continue;
      }
      var sourceIn := segment.sourceStart + (low - segment.recordStart);
      pieces := pieces + [Piece(segment.path, sourceIn, sourceIn + (high - low), clip.record + (low - clip.start),
                                clip.layer, clip.audio)];
      covered := covered + (high - low);
    }
    assert segments[..|segments|] == segments;
  }

  ghost function PiecesOfAll(clips: seq<Clip>, segments: seq<Segment>): seq<Piece> {
    if clips == [] then []
    else PiecesOfAll(clips[..|clips| - 1], segments) + PiecesOf(clips[|clips| - 1], segments)
  }

  /** The clip is covered in full. */
  ghost predicate Fits(clip: Clip, segments: seq<Segment>) {
    Covered(clip, segments) == clip.end - clip.start
  }

  const TIMELINE_SCHEMA := "cutmachine.resolve-timeline.v2"

  method RemapToSources(montage: Montage, map_: Flattening) returns (r: Result<seq<Piece>, RemapProblem>)
    ensures r.Ok? <==> montage.schema == TIMELINE_SCHEMA && montage.rateDen == 1 && montage.rateNum == map_.rate &&
                       (forall i :: 0 <= i < |montage.clips| ==> Fits(montage.clips[i], map_.segments)) &&
                       PiecesOfAll(montage.clips, map_.segments) != []
    ensures r.Ok? ==> r.value == PiecesOfAll(montage.clips, map_.segments)
    ensures r == Err(WrongSchema) <==> montage.schema != TIMELINE_SCHEMA
    ensures r == Err(WrongRate) <==> montage.schema == TIMELINE_SCHEMA &&
                                     (montage.rateDen != 1 || montage.rateNum != map_.rate)
    ensures r.Err? && r.error.OutsideMap? ==>
              var at := r.error.clip;
              at < |montage.clips| && !Fits(montage.clips[at], map_.segments) &&
              forall i :: 0 <= i < at ==> Fits(montage.clips[i], map_.segments)
    ensures r == Err(NothingToRemap) ==> PiecesOfAll(montage.clips, map_.segments) == []
  {
    if montage.schema != TIMELINE_SCHEMA {
      return Err(WrongSchema);
    }
    if montage.rateDen != 1 || montage.rateNum != map_.rate {
      return Err(WrongRate);
    }
    var clips := montage.clips;
    var remapped: seq<Piece> := [];
    for i := 0 to |clips|
      invariant remapped == PiecesOfAll(clips[..i], map_.segments)
      invariant forall k :: 0 <= k < i ==> Fits(clips[k], map_.segments)
    {
      assert clips[..i + 1][..i] == clips[..i];
      var pieces, covered := SplitClip(clips[i], map_.segments);
      remapped := remapped + pieces;
      if covered != clips[i].end - clips[i].start {
        return Err(OutsideMap(i));
      }
    }
    assert clips[..|clips|] == clips;
    if remapped == [] {
      return Err(NothingToRemap);
    }
    return Ok(remapped);
  }

  // ---- The rewriting keeps what is shown -------------------------------------------------

  lemma {:induction false} FlatLength(segments: seq<Segment>)
    requires Contiguous(segments)
    ensures |Flat(segments)| == EndOf(segments, |segments|) && EndOf(segments, |segments|) >= 0
  {
    if segments != [] {
      var front := segments[..|segments| - 1];
      FrontContiguous(segments);
      FlatLength(front);
    }
  }

  lemma FrontContiguous(segments: seq<Segment>)
    requires Contiguous(segments) && segments != []
    ensures var front := segments[..|segments| - 1];
            Contiguous(front) && EndOf(front, |front|) == segments[|segments| - 1].recordStart &&
            segments[|segments| - 1].recordStart <= segments[|segments| - 1].recordEnd
  {
  }

  lemma LaidJoin(a: seq<Frame>, b: seq<Frame>, record: int)
    ensures Laid(a + b, record) == Laid(a, record) + Laid(b, record + |a|)
  {
    LaidAt(a + b, record);
    LaidAt(a, record);
    LaidAt(b, record + |a|);
  }

  /** Up to where the mapped range has been looked at, within the clip. */
  ghost function Reached(clip: Clip, end: int): int {
    Max(clip.start, Min(clip.end, end))
  }

  /** The pieces so far show the clip's frames up to there. */
  ghost predicate ShowsUpTo(clip: Clip, pieces: seq<Piece>, flat: seq<Frame>, end: int)
    requires 0 <= clip.start
  {
    if end > clip.start
    then end <= |flat| && ShownAll(pieces) == Laid(flat[clip.start..end], clip.record)
    else pieces == []
  }

  /** What the pieces of a clip show: the mapped frames behind it, each at its own position. */
  lemma {:induction false} PiecesShow(clip: Clip, segments: seq<Segment>)
    requires Contiguous(segments) && 0 <= clip.start <= clip.end
    ensures ShowsUpTo(clip, PiecesOf(clip, segments), Flat(segments), Reached(clip, EndOf(segments, |segments|)))
  {
    if segments != [] {
      var front, s := segments[..|segments| - 1], segments[|segments| - 1];
      FrontContiguous(segments);
      FlatLength(front);
      PiecesShow(clip, front);
      assert front + [s] == segments;
      if Touches(clip, s) {
        FlatAppend(front, s);
        PiecesAppend(clip, front, s);
        LastPieceShows(clip, s, PiecesOf(clip, front), Flat(front), PiecesOf(clip, segments), Flat(segments));
      } else {
        PastSame(clip, front, s);
      }
    }
  }

  lemma FlatAppend(front: seq<Segment>, s: Segment)
    ensures Flat(front + [s]) == Flat(front) + Run(s.path, s.sourceStart, s.recordEnd - s.recordStart)
  {
  }

  lemma PiecesAppend(clip: Clip, front: seq<Segment>, s: Segment)
    ensures !Touches(clip, s) ==> PiecesOf(clip, front + [s]) == PiecesOf(clip, front)
    ensures Touches(clip, s) ==>
              PiecesOf(clip, front + [s]) == PiecesOf(clip, front) + [PieceOf(clip, s)] &&
              ShownAll(PiecesOf(clip, front + [s])) == ShownAll(PiecesOf(clip, front)) + Shown(PieceOf(clip, s))
  {
  }

  /** A segment the clip does not touch adds nothing. */
  lemma PastSame(clip: Clip, front: seq<Segment>, s: Segment)
    requires |Flat(front)| == s.recordStart <= s.recordEnd && 0 <= clip.start <= clip.end && !Touches(clip, s)
    requires ShowsUpTo(clip, PiecesOf(clip, front), Flat(front), Reached(clip, s.recordStart))
    ensures ShowsUpTo(clip, PiecesOf(clip, front + [s]), Flat(front + [s]), Reached(clip, s.recordEnd))
  {
    FlatAppend(front, s);
    PiecesAppend(clip, front, s);
    var end := Reached(clip, s.recordEnd);
    assert end == Reached(clip, s.recordStart);
    if end > clip.start {
      assert Flat(front + [s])[clip.start..end] == Flat(front)[clip.start..end];
    }
  }

  /** What is mapped from one frame up to another, nothing if they coincide. */
  ghost function Upto(flat: seq<Frame>, from: int, to: int): seq<Frame>
    requires 0 <= from <= to && (from < to ==> to <= |flat|)
  {
    if from < to then flat[from..to] else []
  }

  /** The frames a touched segment adds to those already shown. */
  lemma FramesAdded(flat: seq<Frame>, all: seq<Frame>, s: Segment, from: int, low: int, high: int, own: seq<Frame>)
    requires |flat| == s.recordStart && 0 <= from <= low < high <= s.recordEnd && low == Max(from, s.recordStart)
    requires all == flat + Run(s.path, s.sourceStart, s.recordEnd - s.recordStart)
    requires own == Run(s.path, s.sourceStart + (low - s.recordStart), high - low)
    ensures high <= |all| && all[from..high] == Upto(flat, from, low) + own
  {
    var run := Run(s.path, s.sourceStart, s.recordEnd - s.recordStart);
    RunSlice(s.path, s.sourceStart, s.recordEnd - s.recordStart, low - s.recordStart, high - s.recordStart);
    SliceJoin(flat, run, from, high);
  }

  /** A slice across a join: what is before it and what is after. */
  lemma SliceJoin<T>(a: seq<T>, b: seq<T>, from: int, to: int)
    requires 0 <= from <= to && |a| <= to <= |a| + |b|
    ensures var mid := Max(from, |a|);
            (a + b)[from..to] == (if mid > from then a[from..mid] else []) + b[mid - |a|..to - |a|]
  {
    var mid := Max(from, |a|);
    var parts := (if mid > from then a[from..mid] else []) + b[mid - |a|..to - |a|];
    assert |parts| == to - from;
    forall k | 0 <= k < to - from
      ensures (a + b)[from..to][k] == parts[k]
    {
      if from + k < |a| {
        assert (a + b)[from + k] == a[from + k];
      } else {
        assert (a + b)[from + k] == b[from + k - |a|];
      }
    }
  }

  /** A touched clip starts in the segment, or before it and goes on from what is before it. */
  lemma TouchedBounds(clip: Clip, s: Segment)
    requires clip.start <= clip.end && Touches(clip, s)
    ensures var low, high := Max(clip.start, s.recordStart), Min(clip.end, s.recordEnd);
            clip.start <= low < high && Reached(clip, s.recordStart) == low && Reached(clip, s.recordEnd) == high
  {
  }

  lemma PieceShows(clip: Clip, s: Segment, low: int, high: int, own: seq<Frame>)
    requires low == Max(clip.start, s.recordStart) && high == Min(clip.end, s.recordEnd)
    requires own == Run(s.path, s.sourceStart + (low - s.recordStart), high - low)
    ensures Shown(PieceOf(clip, s)) == Laid(own, clip.record + (low - clip.start))
  {
  }

  lemma ShowsMore(clip: Clip, pieces: seq<Piece>, flat: seq<Frame>, low: int, more: seq<Piece>, all: seq<Frame>,
                  high: int, own: seq<Frame>)
    requires 0 <= clip.start <= low < high <= |all| && (clip.start < low ==> low <= |flat|)
    requires ShowsUpTo(clip, pieces, flat, low)
    requires all[clip.start..high] == Upto(flat, clip.start, low) + own
    requires ShownAll(more) == ShownAll(pieces) + Laid(own, clip.record + (low - clip.start))
    ensures ShowsUpTo(clip, more, all, high)
  {
    LaidJoin(Upto(flat, clip.start, low), own, clip.record);
  }

  /** The piece of a touched segment shows the frames the segment adds. */
  lemma LastPieceShows(clip: Clip, s: Segment, pieces: seq<Piece>, flat: seq<Frame>, more: seq<Piece>, all: seq<Frame>)
    requires |flat| == s.recordStart <= s.recordEnd && 0 <= clip.start <= clip.end && Touches(clip, s)
    requires ShowsUpTo(clip, pieces, flat, Reached(clip, s.recordStart))
    requires ShownAll(more) == ShownAll(pieces) + Shown(PieceOf(clip, s))
    requires all == flat + Run(s.path, s.sourceStart, s.recordEnd - s.recordStart)
    ensures ShowsUpTo(clip, more, all, Reached(clip, s.recordEnd))
  {
    var low, high := Max(clip.start, s.recordStart), Min(clip.end, s.recordEnd);
    var own := Run(s.path, s.sourceStart + (low - s.recordStart), high - low);
    TouchedBounds(clip, s);
    PieceShows(clip, s, low, high, own);
    FramesAdded(flat, all, s, clip.start, low, high, own);
    ShowsMore(clip, pieces, flat, low, more, all, high, own);
  }

  lemma RunSlice(path: string, start: int, n: int, a: int, b: int)
    requires 0 <= a <= b <= n
    ensures Run(path, start, n)[a..b] == Run(path, start + a, b - a)
  {
    RunAt(path, start, n);
    RunAt(path, start + a, b - a);
  }

  // ---- The theorems -------------------------------------------------------------------------

  /** A non-empty clip is refused exactly when it leaves the mapped range; an empty one never is, a reversed one always. */
  lemma FitsIffInside(clip: Clip, segments: seq<Segment>)
    requires Contiguous(segments)
    ensures Fits(clip, segments) <==>
            clip.start == clip.end || (clip.start < clip.end && 0 <= clip.start && clip.end <= |Flat(segments)|)
  {
    FlatLength(segments);
    CoveredIs(clip, segments);
  }

  /** Frames covered: those of the clip inside the mapped range. */
  lemma {:induction false} CoveredIs(clip: Clip, segments: seq<Segment>)
    requires Contiguous(segments)
    ensures var low, high := Max(clip.start, 0), Min(clip.end, EndOf(segments, |segments|));
            Covered(clip, segments) == if low < high then high - low else 0
  {
    FlatLength(segments);
    if segments != [] {
      var front := segments[..|segments| - 1];
      FrontContiguous(segments);
      FlatLength(front);
      CoveredIs(clip, front);
    }
  }

  /** An accepted clip shows, frame by frame and at the same positions, the source frames behind it. */
  lemma RemapKeepsFrames(clip: Clip, segments: seq<Segment>)
    requires Contiguous(segments) && Fits(clip, segments)
    ensures clip.start < clip.end ==>
              0 <= clip.start && clip.end <= |Flat(segments)| &&
              ShownAll(PiecesOf(clip, segments)) == Laid(Flat(segments)[clip.start..clip.end], clip.record)
    ensures clip.start >= clip.end ==> ShownAll(PiecesOf(clip, segments)) == []
  {
    FitsIffInside(clip, segments);
    if clip.start < clip.end {
      FlatLength(segments);
      PiecesShow(clip, segments);
    } else {
      NoPieces(clip, segments);
    }
  }

  lemma {:induction false} NoPieces(clip: Clip, segments: seq<Segment>)
    requires clip.start >= clip.end
    ensures PiecesOf(clip, segments) == []
  {
    if segments != [] {
      NoPieces(clip, segments[..|segments| - 1]);
    }
  }

  /** What a montage shows, given the source frame behind each frame of the render it was cut on. */
  ghost function MontageShown(clips: seq<Clip>, flat: seq<Frame>): seq<Shot>
    requires forall i :: 0 <= i < |clips| ==> clips[i].start < clips[i].end ==> 0 <= clips[i].start && clips[i].end <= |flat|
  {
    if clips == [] then []
    else
      var last := clips[|clips| - 1];
      MontageShown(clips[..|clips| - 1], flat) +
      if last.start < last.end then Laid(flat[last.start..last.end], last.record) else []
  }

  lemma {:induction false} ShownJoin(a: seq<Piece>, b: seq<Piece>)
    ensures ShownAll(a + b) == ShownAll(a) + ShownAll(b)
  {
    if b == [] {
      assert a + b == a;
    } else {
      var last := |b| - 1;
      assert (a + b)[..|a + b| - 1] == a + b[..last];
      ShownJoin(a, b[..last]);
      Associate(ShownAll(a), ShownAll(b[..last]), Shown(b[last]));
    }
  }

  /** The whole remapped montage shows exactly what the montage showed. */
  lemma {:induction false} MontageKept(clips: seq<Clip>, segments: seq<Segment>)
    requires Contiguous(segments) && forall i :: 0 <= i < |clips| ==> Fits(clips[i], segments)
    ensures forall i :: 0 <= i < |clips| ==>
              clips[i].start < clips[i].end ==> 0 <= clips[i].start && clips[i].end <= |Flat(segments)|
    ensures ShownAll(PiecesOfAll(clips, segments)) == MontageShown(clips, Flat(segments))
  {
    forall i | 0 <= i < |clips|
      ensures clips[i].start < clips[i].end ==> 0 <= clips[i].start && clips[i].end <= |Flat(segments)|
    {
      FitsIffInside(clips[i], segments);
    }
    if clips != [] {
      var last := |clips| - 1;
      MontageKept(clips[..last], segments);
      ShownJoin(PiecesOfAll(clips[..last], segments), PiecesOf(clips[last], segments));
      RemapKeepsFrames(clips[last], segments);
    }
  }

  /** The source frames that a timeline's items show, one after the other. */
  ghost function ItemFrames(items: seq<Item>): seq<Frame> {
    if items == [] then []
    else
      var last := items[|items| - 1];
      ItemFrames(items[..|items| - 1]) +
      Run(if last.source.File? then last.source.path else "", last.sourceStart, last.duration)
  }

  lemma {:induction false} FlatIsItems(origin: int, items: seq<Item>, segments: seq<Segment>)
    requires AreSegments(origin, items, segments) && |segments| == |items|
    ensures Flat(segments) == ItemFrames(items)
  {
    if items != [] {
      var n := |items| - 1;
      FrontSegments(origin, items, segments, n);
      FlatIsItems(origin, items[..n], segments[..n]);
      LastSegment(origin, items, segments, n);
    }
  }

  lemma FrontSegments(origin: int, items: seq<Item>, segments: seq<Segment>, n: nat)
    requires AreSegments(origin, items, segments) && n <= |segments|
    ensures AreSegments(origin, items[..n], segments[..n])
  {
    forall i | 0 <= i < n ensures Mappable(origin, items[..n], i) && segments[..n][i] == SegmentOf(origin, items[..n][i]) {
      assert Mappable(origin, items, i) && CursorAt(origin, items[..n], i) == CursorAt(origin, items, i);
    }
  }

  lemma LastSegment(origin: int, items: seq<Item>, segments: seq<Segment>, n: nat)
    requires AreSegments(origin, items, segments) && n < |segments|
    ensures segments[n].sourceStart == items[n].sourceStart
    ensures segments[n].recordEnd - segments[n].recordStart == items[n].duration
    ensures items[n].source.File? && segments[n].path == items[n].source.path
  {
    assert Mappable(origin, items, n);
  }

  /** The pieces of a clip stay on its layer, with or without its sound. */
  lemma {:induction false} PiecesKeepLayer(clip: Clip, segments: seq<Segment>)
    ensures forall p :: p in PiecesOf(clip, segments) ==> p.layer == clip.layer && p.audio == clip.audio
  {
    if segments != [] {
      PiecesKeepLayer(clip, segments[..|segments| - 1]);
    }
  }

  /**
   A timeline flattened and a montage of it remapped: when no item has a
   negative duration the result shows, at the same positions, the very source
   frames that the timeline's items show where the montage uses them.
   */
  method FlattenThenRemap(origin: int, rate: int, tracks: seq<seq<Item>>, montage: Montage)
    returns (map_: Result<Flattening, FlattenProblem>, r: Result<seq<Piece>, RemapProblem>)
    ensures map_.Ok? ==> |Populated(tracks)| == 1
    ensures map_.Ok? && r.Ok? && (forall i :: 0 <= i < |Populated(tracks)[0]| ==> Populated(tracks)[0][i].duration >= 0) ==>
              var frames := ItemFrames(Populated(tracks)[0]);
              && (forall i :: 0 <= i < |montage.clips| ==> montage.clips[i].start < montage.clips[i].end ==>
                    0 <= montage.clips[i].start && montage.clips[i].end <= |frames|)
              && ShownAll(r.value) == MontageShown(montage.clips, frames)
  {
    r := Err(NothingToRemap);
    map_ := FlattenTimeline(origin, rate, tracks);
    if map_.Ok? {
      r := RemapToSources(montage, map_.value);
      ghost var items, segments := Populated(tracks)[0], map_.value.segments;
      FlattenedIsContiguous(origin, items, segments);
      FlatIsItems(origin, items, segments);
      if r.Ok? && Contiguous(segments) {
        MontageKept(montage.clips, segments);
      }
    }
  }
}
