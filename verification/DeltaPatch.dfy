/** A client that patches its own model with the delta, taking every rule literally, holds the new state. */
module DeltaPatch {
  import opened Clips
  import opened DocumentDelta

  /** What a client knows of a clip. */
  datatype Shown = Shown(track: Id, source: Id, sourceIn: real, duration: real, timelineIn: real)

  function ShownOf(p: Placed): Shown {
    Shown(p.track.id, p.clip.source, p.clip.sourceIn, p.clip.duration, p.clip.timelineIn)
  }

  ghost function View(s: Sequence): map<Id, Shown> {
    map id | id in Index(s).Keys :: ShownOf(Index(s)[id])
  }

  // ---- The client ------------------------------------------------------------------------

  /** By how much the rules together move a clip: each applies to its track from its position on. */
  ghost function ShiftOf(shown: Shown, shifted: seq<DeltaShift>): real {
    if shifted == [] then 0.0
    else
      var last := shifted[|shifted| - 1];
      ShiftOf(shown, shifted[..|shifted| - 1]) +
      if last.track == shown.track && shown.timelineIn >= last.from then last.step else 0.0
  }

  /** The state listed last for a clip. */
  ghost function ListedState(clips: seq<DeltaClip>, id: Id): Shown
    requires IsListed(clips, id)
  {
    var last := clips[|clips| - 1];
    if last.id == id then Shown(last.track, last.source, last.sourceIn, last.duration, last.timelineIn)
    else
      assert IsListed(clips[..|clips| - 1], id) by {
        var i :| 0 <= i < |clips| && clips[i].id == id;
        assert clips[..|clips| - 1][i] == clips[i];
      }
      ListedState(clips[..|clips| - 1], id)
  }

  ghost function ListedIds(clips: seq<DeltaClip>): set<Id> {
    set i | 0 <= i < |clips| :: clips[i].id
  }

  ghost function Removed(ids: seq<Id>): set<Id> {
    set i | 0 <= i < |ids| :: ids[i]
  }

  /** Drop what was removed, take what is listed as it is listed, and move the rest by the rules. */
  ghost function Patched(view: map<Id, Shown>, d: Delta): map<Id, Shown> {
    map id | id in (view.Keys - Removed(d.removedClips)) + ListedIds(d.clips) :: PatchedClip(view, d, id)
  }

  ghost function PatchedClip(view: map<Id, Shown>, d: Delta, id: Id): Shown
    requires id in view || id in ListedIds(d.clips)
  {
    if IsListed(d.clips, id) then ListedState(d.clips, id)
    else view[id].(timelineIn := view[id].timelineIn + ShiftOf(view[id], d.shifted))
  }

  // ---- Its model is right ------------------------------------------------------------------

  /** At most one rule applies to a clip. */
  lemma {:induction false} ShiftIsOne(shown: Shown, shifted: seq<DeltaShift>)
    requires TracksAscend(shifted)
    ensures !HasShift(shifted, shown.track) ==> ShiftOf(shown, shifted) == 0.0
    ensures forall i :: 0 <= i < |shifted| && shifted[i].track == shown.track ==>
              ShiftOf(shown, shifted) == if shown.timelineIn >= shifted[i].from then shifted[i].step else 0.0
  {
    if shifted != [] {
      var front, last := shifted[..|shifted| - 1], |shifted| - 1;
      ShiftIsOne(shown, front);
      forall i | 0 <= i < last
        ensures front[i] == shifted[i] && front[i].track != shifted[last].track
      {
      }
      if shifted[last].track == shown.track {
        assert HasShift(shifted, shown.track);
        assert !HasShift(front, shown.track);
      } else if HasShift(front, shown.track) {
        var i :| 0 <= i < |front| && front[i].track == shown.track;
        assert shifted[i].track == shown.track;
      }
    }
  }

  lemma {:induction false} ListedAsIs(now: map<Id, Placed>, was: map<Id, Placed>, clips: seq<DeltaClip>, id: Id)
    requires IsListed(clips, id) && id in now
    requires forall i :: 0 <= i < |clips| && clips[i].id == id ==> clips[i] == Describe(now[id], id !in was)
    ensures ListedState(clips, id) == ShownOf(now[id])
  {
    var last := |clips| - 1;
    if clips[last].id != id {
      var i :| 0 <= i < |clips| && clips[i].id == id;
      assert clips[..last][i] == clips[i];
      ListedAsIs(now, was, clips[..last], id);
    }
  }

  lemma PatchedKeys(before: Sequence, after: Sequence, d: Delta, id: Id)
    requires IsDelta(before, after, d)
    ensures id in Patched(View(before), d) <==> id in Index(after)
  {
    var was, now := Index(before), Index(after);
    assert id in Removed(d.removedClips) <==> id in d.removedClips;
    assert id in ListedIds(d.clips) <==> IsListed(d.clips, id);
    assert IsListed(d.clips, id) <==> NeedsListing(was, now, d.shifted, id);
  }

  /** The rules move an unlisted clip by what it moved. */
  lemma RulesMove(was: map<Id, Placed>, now: map<Id, Placed>, shifted: seq<DeltaShift>, id: Id)
    requires ShiftsExactly(was, now, shifted) && id in was && id in now
    requires FateOf(was, now, id) == Untouched ||
             (FateOf(was, now, id) == Moved && HasShift(shifted, was[id].track.id))
    ensures ShiftOf(ShownOf(was[id]), shifted) == StepOf(was, now, id)
  {
    var shown := ShownOf(was[id]);
    ShiftIsOne(shown, shifted);
    if FateOf(was, now, id) == Untouched {
      assert Silent(was[id].clip).timelineIn == Silent(now[id].clip).timelineIn;
    }
    if HasShift(shifted, shown.track) {
      var i :| 0 <= i < |shifted| && shifted[i].track == shown.track;
      assert IsRule(was, now, shifted[i]);
      assert id in MovedOn(was, now, shown.track) <==> FateOf(was, now, id) == Moved;
    }
  }

  /** Clips that are untouched or only moved show the same but for their position. */
  lemma StillShown(was: Placed, now: Placed)
    requires was.track.id == now.track.id && Same(was.clip, now.clip.(timelineIn := was.clip.timelineIn))
    ensures ShownOf(now) == ShownOf(was).(timelineIn := now.clip.timelineIn)
  {
  }

  lemma UntouchedIsUnmoved(was: Clip, now: Clip)
    requires Same(was, now)
    ensures Same(was, now.(timelineIn := was.timelineIn))
  {
  }

  lemma UnlistedMoves(before: Sequence, after: Sequence, d: Delta, id: Id)
    requires IsDelta(before, after, d) && id in Index(after) && !IsListed(d.clips, id)
    ensures id in Index(before)
    ensures PatchedClip(View(before), d, id) == ShownOf(Index(after)[id])
  {
    var was, now := Index(before), Index(after);
    assert !NeedsListing(was, now, d.shifted, id);
    RulesMove(was, now, d.shifted, id);
    if FateOf(was, now, id) == Untouched {
      UntouchedIsUnmoved(was[id].clip, now[id].clip);
    }
    StillShown(was[id], now[id]);
  }

  /** Patching the old state with the delta gives the new one: every clip, its track, its source and its times. */
  lemma PatchIsExact(before: Sequence, after: Sequence, d: Delta)
    requires IsDelta(before, after, d)
    ensures Patched(View(before), d) == View(after)
  {
    var patched := Patched(View(before), d);
    forall id
      ensures id in patched <==> id in View(after)
      ensures id in patched ==> patched[id] == View(after)[id]
    {
      PatchedKeys(before, after, d, id);
      if id in patched {
        if IsListed(d.clips, id) {
          ListedAsIs(Index(after), Index(before), d.clips, id);
        } else {
          UnlistedMoves(before, after, d, id);
        }
      }
    }
  }

  /** A rule never touches a clip that did not move by exactly its step, and counts what it touches. */
  lemma RulesAreLiteral(before: Sequence, after: Sequence, d: Delta, s: DeltaShift, id: Id)
    requires IsDelta(before, after, d) && s in d.shifted
    requires id in View(before) && View(before)[id].track == s.track && View(before)[id].timelineIn >= s.from
    ensures id in View(after) && View(after)[id] ==
            View(before)[id].(timelineIn := View(before)[id].timelineIn + s.step)
    ensures s.count == |set k | k in View(before) && View(before)[k].track == s.track &&
                               View(before)[k].timelineIn >= s.from|
  {
    var was, now := Index(before), Index(after);
    assert IsRule(was, now, s);
    assert id in MovedOn(was, now, s.track);
    assert Silent(was[id].clip) == Silent(now[id].clip.(timelineIn := was[id].clip.timelineIn));
    assert (set k | k in View(before) && View(before)[k].track == s.track && View(before)[k].timelineIn >= s.from)
        == MovedOn(was, now, s.track);
  }

  ghost predicate HasCreated(created: seq<DeltaTrack>, id: Id) {
    exists i :: 0 <= i < |created| && created[i].id == id
  }

  lemma HasLast(tracks: seq<Track>, id: Id)
    requires tracks != []
    ensures HasTrack(tracks, id) <==> HasTrack(tracks[..|tracks| - 1], id) || tracks[|tracks| - 1].id == id
  {
  }

  lemma HasAdded(created: seq<DeltaTrack>, t: DeltaTrack, id: Id)
    ensures HasCreated(created + [t], id) <==> HasCreated(created, id) || t.id == id
  {
    var all := created + [t];
    if HasCreated(created, id) {
      var i :| 0 <= i < |created| && created[i].id == id;
      assert all[i].id == id;
    }
    assert all[|created|] == t;
  }

  /** The tracks reported as created are exactly those that were not there before. */
  lemma {:induction false} CreatedTracksAre(before: seq<Track>, after: seq<Track>, id: Id)
    ensures HasCreated(CreatedOf(before, after), id) <==> HasTrack(after, id) && !HasTrack(before, id)
  {
    if after != [] {
      var last := after[|after| - 1];
      var front := CreatedOf(before, after[..|after| - 1]);
      CreatedTracksAre(before, after[..|after| - 1], id);
      HasLast(after, id);
      HasAdded(front, DeltaTrack(last.id, last.kind, last.index), id);
      assert front + [] == front;
    }
  }

  predicate IsTrack(c: DeltaTrack, t: Track) {
    c.id == t.id && c.kind == t.kind && c.index == t.index
  }

  /** The reported tracks are those at certain places, in order. */
  ghost predicate AreAt(created: seq<DeltaTrack>, tracks: seq<Track>, at: seq<nat>) {
    && |at| == |created|
    && (forall i, j :: 0 <= i < j < |at| ==> at[i] < at[j])
    && (forall i :: 0 <= i < |at| ==> at[i] < |tracks| && IsTrack(created[i], tracks[at[i]]))
  }

  /** The places are exactly those of the tracks that were not there before. */
  ghost predicate AreNew(before: seq<Track>, tracks: seq<Track>, at: seq<nat>) {
    forall k: nat :: k in at <==> k < |tracks| && !HasTrack(before, tracks[k].id)
  }

  lemma OneMoreTrack(before: seq<Track>, front: seq<Track>, last: Track, created: seq<DeltaTrack>, at: seq<nat>, isNew: bool)
    requires AreAt(created, front, at) && AreNew(before, front, at) && (isNew <==> !HasTrack(before, last.id))
    ensures var more := at + if isNew then [|front|] else [];
            AreNew(before, front + [last], more) &&
            AreAt(created + if isNew then [DeltaTrack(last.id, last.kind, last.index)] else [], front + [last], more)
  {
    var more := at + if isNew then [|front|] else [];
    forall k: nat ensures k in more <==> k in at || (isNew && k == |front|) {
      assert isNew ==> more[|at|] == |front|;
    }
  }

  /** Where the created tracks are found: exactly at the tracks that were not there before, in order, as they now are. */
  lemma {:induction false} CreatedTracksAt(before: seq<Track>, after: seq<Track>) returns (at: seq<nat>)
    ensures AreAt(CreatedOf(before, after), after, at) && AreNew(before, after, at)
  {
    at := [];
    if after != [] {
      var front, last := after[..|after| - 1], after[|after| - 1];
      var isNew := !HasTrack(before, last.id);
      at := CreatedTracksAt(before, front);
      OneMoreTrack(before, front, last, CreatedOf(before, front), at, isNew);
      assert after == front + [last];
      at := at + if isNew then [|front|] else [];
    }
  }

  /** A listed clip is marked as created exactly when it was not there before, and is listed as it now is. */
  lemma ListedIsMarked(before: Sequence, after: Sequence, d: Delta, i: nat)
    requires IsDelta(before, after, d) && i < |d.clips|
    ensures var c := d.clips[i];
            && (c.created <==> c.id !in View(before))
            && c.id in View(after) && Shown(c.track, c.source, c.sourceIn, c.duration, c.timelineIn) == View(after)[c.id]
  {
    assert d.clips[i] == Describe(Index(after)[d.clips[i].id], d.clips[i].id !in Index(before));
  }

  // ---- When nothing is reported ---------------------------------------------------------------

  ghost predicate TracksAgree(before: Sequence, after: Sequence) {
    forall id :: HasTrack(before.tracks, id) <==> HasTrack(after.tracks, id)
  }

  /** Everything the delta looks at is the same. */
  ghost predicate LooksSame(before: Sequence, after: Sequence) {
    var was, now := Index(before), Index(after);
    && was.Keys == now.Keys
    && (forall id :: id in was ==> was[id].track.id == now[id].track.id && Same(was[id].clip, now[id].clip))
    && TracksAgree(before, after)
    && !HeaderDiffers(before, after)
  }

  /** The call reports no change exactly when everything it looks at is the same. */
  lemma EmptyIffSame(before: Sequence, after: Sequence, d: Delta)
    requires IsDelta(before, after, d)
    ensures IsEmpty(d) <==> LooksSame(before, after)
  {
    if IsEmpty(d) {
      EmptyMeansSame(before, after, d);
    }
    if !IsEmpty(d) {
      ReportMeansDifferent(before, after, d);
    }
  }

  lemma EmptyMeansSame(before: Sequence, after: Sequence, d: Delta)
    requires IsDelta(before, after, d) && IsEmpty(d)
    ensures LooksSame(before, after)
  {
    var was, now := Index(before), Index(after);
    forall id
      ensures id in was <==> id in now
      ensures id in was ==> was[id].track.id == now[id].track.id && Same(was[id].clip, now[id].clip)
    {
      assert id !in d.removedClips && !IsListed(d.clips, id);
      assert !NeedsListing(was, now, d.shifted, id);
    }
    forall id
      ensures HasTrack(before.tracks, id) <==> HasTrack(after.tracks, id)
    {
      CreatedTracksAre(before.tracks, after.tracks, id);
      assert id !in d.removedTracks;
    }
  }

  lemma ReportMeansDifferent(before: Sequence, after: Sequence, d: Delta)
    requires IsDelta(before, after, d) && !IsEmpty(d)
    ensures !LooksSame(before, after)
  {
    var was, now := Index(before), Index(after);
    if d.clips != [] {
      assert IsListed(d.clips, d.clips[0].id);
      assert NeedsListing(was, now, d.shifted, d.clips[0].id);
    } else if d.removedClips != [] {
      assert d.removedClips[0] in d.removedClips;
    } else if d.shifted != [] {
      assert IsRule(was, now, d.shifted[0]);
      var id :| id in MovedOn(was, now, d.shifted[0].track);
      assert FateOf(was, now, id) == Moved;
    } else if d.removedTracks != [] {
      assert d.removedTracks[0] in d.removedTracks;
    } else if d.createdTracks != [] {
      CreatedTracksAre(before.tracks, after.tracks, d.createdTracks[0].id);
      assert HasCreated(d.createdTracks, d.createdTracks[0].id);
    }
  }

  // ---- When that report is right ----------------------------------------------------------------

  predicate AudioSame(left: Clip, right: Clip) {
    left.audioGain == right.audioGain && left.audioFadeIn == right.audioFadeIn && left.audioFadeOut == right.audioFadeOut
  }

  /** The clips in both timelines have the same audio settings. */
  ghost predicate AudioUnchanged(before: Sequence, after: Sequence) {
    var was, now := Index(before), Index(after);
    forall id :: id in was && id in now ==> AudioSame(was[id].clip, now[id].clip)
  }

  /** The same clips, equal in every field, on the same tracks, under the same header. */
  ghost predicate IsSame(before: Sequence, after: Sequence) {
    var was, now := Index(before), Index(after);
    && was.Keys == now.Keys
    && (forall id :: id in was ==> was[id].track.id == now[id].track.id && was[id].clip == now[id].clip)
    && TracksAgree(before, after)
    && !HeaderDiffers(before, after)
  }

  /** Two clips that compare as equal are equal exactly when their audio settings are. */
  lemma EqualButForAudio(left: Clip, right: Clip)
    ensures left == right <==> Same(left, right) && AudioSame(left, right)
  {
    SameIff(left, right);
  }

  lemma SameButForAudio(before: Sequence, after: Sequence)
    ensures IsSame(before, after) <==> LooksSame(before, after) && AudioUnchanged(before, after)
  {
    var was, now := Index(before), Index(after);
    forall id | id in was && id in now
      ensures was[id].clip == now[id].clip <==> Same(was[id].clip, now[id].clip) && AudioSame(was[id].clip, now[id].clip)
    {
      EqualButForAudio(was[id].clip, now[id].clip);
    }
  }

  /** A report of no change means no change at all exactly unless only audio settings differ. */
  lemma EmptyIsRightIff(before: Sequence, after: Sequence, d: Delta)
    requires IsDelta(before, after, d)
    ensures (IsEmpty(d) <==> IsSame(before, after)) <==> (LooksSame(before, after) ==> AudioUnchanged(before, after))
  {
    EmptyIffSame(before, after, d);
    SameButForAudio(before, after);
  }

  // ---- Clip by clip -----------------------------------------------------------------------------

  /** The rule moves the clip. */
  ghost predicate Moves(s: DeltaShift, p: Placed) {
    p.track.id == s.track && p.clip.timelineIn >= s.from
  }

  ghost predicate IsMoved(shifted: seq<DeltaShift>, p: Placed) {
    exists i :: 0 <= i < |shifted| && Moves(shifted[i], p)
  }

  /** The delta has something to say of a clip that was there: it is removed, listed or moved by a rule. */
  ghost predicate Told(before: Sequence, d: Delta, id: Id) {
    id in d.removedClips || IsListed(d.clips, id) || (id in Index(before) && IsMoved(d.shifted, Index(before)[id]))
  }

  /** The clip is new, gone, on another track, or different in some field. */
  ghost predicate Differs(before: Sequence, after: Sequence, id: Id) {
    var was, now := Index(before), Index(after);
    (id in was) != (id in now) ||
    (id in was && id in now && (was[id].track.id != now[id].track.id || was[id].clip != now[id].clip))
  }

  /** On its track and equal in all that is compared, but not in its audio settings. */
  ghost predicate OnlyAudioDiffers(before: Sequence, after: Sequence, id: Id) {
    var was, now := Index(before), Index(after);
    && id in was && id in now && was[id].track.id == now[id].track.id
    && Same(was[id].clip, now[id].clip) && !AudioSame(was[id].clip, now[id].clip)
  }

  /** A clip that only moved is moved by a rule exactly when its track has one. */
  lemma RuleReaches(was: map<Id, Placed>, now: map<Id, Placed>, shifted: seq<DeltaShift>, id: Id)
    requires ShiftsExactly(was, now, shifted) && id in was && id in now
    ensures IsMoved(shifted, was[id]) <==> FateOf(was, now, id) == Moved && HasShift(shifted, was[id].track.id)
  {
    forall i | 0 <= i < |shifted| && shifted[i].track == was[id].track.id
      ensures Moves(shifted[i], was[id]) <==> FateOf(was, now, id) == Moved
    {
      assert IsRule(was, now, shifted[i]);
      assert id in MovedOn(was, now, shifted[i].track) <==> FateOf(was, now, id) == Moved;
    }
  }

  /** What the delta tells of a clip that is in both timelines is that it looks different. */
  lemma ToldIffLooksDifferent(before: Sequence, after: Sequence, d: Delta, id: Id)
    requires IsDelta(before, after, d) && id in Index(before) && id in Index(after)
    ensures Told(before, d, id) <==>
            !(Index(before)[id].track.id == Index(after)[id].track.id && Same(Index(before)[id].clip, Index(after)[id].clip))
  {
    var was, now := Index(before), Index(after);
    RuleReaches(was, now, d.shifted, id);
    assert IsListed(d.clips, id) <==> NeedsListing(was, now, d.shifted, id);
  }

  /** The delta tells of a clip exactly when it differs, unless only its audio settings do. */
  lemma ClipIsToldIff(before: Sequence, after: Sequence, d: Delta, id: Id)
    requires IsDelta(before, after, d)
    ensures (Told(before, d, id) <==> Differs(before, after, id)) <==> !OnlyAudioDiffers(before, after, id)
  {
    var was, now := Index(before), Index(after);
    assert IsListed(d.clips, id) <==> NeedsListing(was, now, d.shifted, id);
    assert id in d.removedClips <==> id in was && id !in now;
    if id in was && id in now {
      ToldIffLooksDifferent(before, after, d, id);
      EqualButForAudio(was[id].clip, now[id].clip);
    }
  }

  /** A delta under-reports exactly when some clip's audio settings are all that changed in it; it never over-reports. */
  lemma ReportIsRightIff(before: Sequence, after: Sequence, d: Delta)
    requires IsDelta(before, after, d)
    ensures (forall id :: Told(before, d, id) <==> Differs(before, after, id)) <==>
            (forall id :: !OnlyAudioDiffers(before, after, id))
    ensures forall id :: Told(before, d, id) && id !in Index(after) ==> id in d.removedClips
    ensures forall id :: Told(before, d, id) ==> Differs(before, after, id)
  {
    forall id
      ensures (Told(before, d, id) <==> Differs(before, after, id)) <==> !OnlyAudioDiffers(before, after, id)
      ensures Told(before, d, id) ==> Differs(before, after, id)
    {
      ClipIsToldIff(before, after, d, id);
      if OnlyAudioDiffers(before, after, id) {
        ToldIffLooksDifferent(before, after, d, id);
      }
    }
    forall id | Told(before, d, id) && id !in Index(after)
      ensures id in d.removedClips
    {
      assert IsListed(d.clips, id) <==> NeedsListing(Index(before), Index(after), d.shifted, id);
      assert id in Index(before);
    }
  }

  /** After an edit that touches no audio setting every clip is reported rightly, and so is no change. */
  lemma RightWithoutAudioEdits(before: Sequence, after: Sequence, d: Delta)
    requires IsDelta(before, after, d) && AudioUnchanged(before, after)
    ensures forall id :: Told(before, d, id) <==> Differs(before, after, id)
    ensures IsEmpty(d) <==> IsSame(before, after)
  {
    EmptyIsRightIff(before, after, d);
    ReportIsRightIff(before, after, d);
  }

  /** A clip that a rule moves changed nothing else exactly when its audio settings stayed as they were. */
  lemma NothingElseIff(before: Sequence, after: Sequence, d: Delta, s: DeltaShift, id: Id)
    requires IsDelta(before, after, d) && s in d.shifted && id in Index(before) && Moves(s, Index(before)[id])
    ensures id in Index(after) && Index(after)[id].track.id == s.track && !IsListed(d.clips, id)
    ensures var p, q := Index(before)[id].clip, Index(after)[id].clip;
            q == p.(timelineIn := p.timelineIn + s.step) <==> AudioSame(p, q)
  {
    var was, now := Index(before), Index(after);
    var i :| 0 <= i < |d.shifted| && d.shifted[i] == s;
    assert IsRule(was, now, d.shifted[i]) && id in MovedOn(was, now, s.track) && HasShift(d.shifted, s.track);
    assert !NeedsListing(was, now, d.shifted, id);
    var p, q := was[id].clip, now[id].clip;
    EqualButForAudio(p, q.(timelineIn := p.timelineIn));
    assert q.timelineIn == p.timelineIn + s.step;
    assert q == q.(timelineIn := p.timelineIn).(timelineIn := q.timelineIn);
  }

  // ---- Where the promise fails --------------------------------------------------------------------

  function QuietClip(): Clip {
    Clip(1, 2, 0.0, 1.0, 0.0, false, 0, 0, 0.0, [], 0, "", Fraction(1, 1), Fraction(0, 1), 0.0, 0.0)
  }

  function OfOneClip(name: string, clip: Clip): Sequence {
    Sequence(name, 1, 1, Fraction(25, 1), [Track(3, "audio", 0, [clip])])
  }

  /** The index of a timeline of one clip. */
  lemma OneClip(name: string, clip: Clip)
    requires clip.id == 1
    ensures var s := OfOneClip(name, clip);
            && UniqueClips(s) && UniqueTracks(s)
            && Index(s).Keys == {1} && Index(s)[1] == Placed(clip, s.tracks[0])
            && forall id :: HasTrack(s.tracks, id) <==> id == 3
  {
    var s := OfOneClip(name, clip);
    IndexComplete(s, 0, 0);
    forall id | id in Index(s)
      ensures id == 1
    {
      IndexSound(s, id);
    }
    forall id
      ensures HasTrack(s.tracks, id) <==> id == 3
    {
      assert s.tracks[0].id == 3;
    }
  }

  /**
   The promise that every field of a clip is compared fails: two timelines of
   one clip that differ in its gain and in nothing else are reported as the same.
   */
  lemma GainGoesUnreported(d: Delta) returns (before: Sequence, after: Sequence)
    ensures UniqueClips(before) && UniqueTracks(before)
    ensures before == OfOneClip("s", QuietClip())
    ensures after == OfOneClip("s", QuietClip().(audioGain := Fraction(6, 1)))
    ensures IsDelta(before, after, d) ==> IsEmpty(d) && Differs(before, after, 1) && !IsSame(before, after)
  {
    var loud := QuietClip().(audioGain := Fraction(6, 1));
    before, after := OfOneClip("s", QuietClip()), OfOneClip("s", loud);
    OneClip("s", QuietClip());
    OneClip("s", loud);
    assert Silent(QuietClip()) == Silent(loud);
    if IsDelta(before, after, d) {
      assert LooksSame(before, after);
      EmptyIffSame(before, after, d);
    }
  }

  /** It goes unreported as well when something else is reported: here, a new name. */
  lemma GainGoesUnreportedAmongOthers(d: Delta) returns (before: Sequence, after: Sequence)
    ensures UniqueClips(before) && UniqueTracks(before)
    ensures before == OfOneClip("s", QuietClip())
    ensures after == OfOneClip("t", QuietClip().(audioGain := Fraction(6, 1)))
    ensures IsDelta(before, after, d) ==> !IsEmpty(d) && Differs(before, after, 1) && !Told(before, d, 1)
  {
    var loud := QuietClip().(audioGain := Fraction(6, 1));
    before, after := OfOneClip("s", QuietClip()), OfOneClip("t", loud);
    OneClip("s", QuietClip());
    OneClip("t", loud);
    assert Silent(QuietClip()) == Silent(loud);
    if IsDelta(before, after, d) {
      assert HeaderDiffers(before, after) && !LooksSame(before, after);
      EmptyIffSame(before, after, d);
      ToldIffLooksDifferent(before, after, d, 1);
    }
  }

  /**
   The promise that a clip moved by a rule changed nothing else fails too: a
   clip that moved by five and changed its gain is folded into a rule.
   */
  lemma GainFoldsIntoRule(d: Delta) returns (before: Sequence, after: Sequence)
    ensures UniqueClips(before) && UniqueTracks(before)
    ensures before == OfOneClip("s", QuietClip())
    ensures after == OfOneClip("s", QuietClip().(timelineIn := 5.0, audioGain := Fraction(6, 1)))
    ensures IsDelta(before, after, d) ==>
              IsMoved(d.shifted, Index(before)[1]) && !IsListed(d.clips, 1) &&
              Index(after)[1].clip != Index(before)[1].clip.(timelineIn := 5.0)
  {
    var moved := QuietClip().(timelineIn := 5.0, audioGain := Fraction(6, 1));
    before, after := OfOneClip("s", QuietClip()), OfOneClip("s", moved);
    OneClip("s", QuietClip());
    OneClip("s", moved);
    var was, now := Index(before), Index(after);
    assert Silent(QuietClip()).timelineIn != Silent(moved).timelineIn;
    assert Silent(QuietClip()) == Silent(moved.(timelineIn := 0.0));
    assert FateOf(was, now, 1) == Moved;
    if IsDelta(before, after, d) {
      var s := DeltaShift(3, 0.0, 5.0, 1);
      assert MovedOn(was, now, 3) == {1};
      assert IsRule(was, now, s);
      RuleReaches(was, now, d.shifted, 1);
      assert !NeedsListing(was, now, d.shifted, 1);
    }
  }
}
