/**
 The difference of two states of a timeline. Clips that only moved are held
 back and folded, track by track, into one shift rule when the rule explains
 every clip from its start on; every other change lists the resulting clip.
 */
module DocumentDelta {
  import opened Clips
  import opened StableSort

  datatype DeltaClip = DeltaClip(id: Id, track: Id, source: Id, sourceIn: real, duration: real, timelineIn: real,
                                 created: bool)

  datatype DeltaShift = DeltaShift(track: Id, from: real, step: real, count: nat)

  datatype DeltaTrack = DeltaTrack(id: Id, kind: string, index: int)

  datatype Delta = Delta(clips: seq<DeltaClip>, removedClips: seq<Id>, shifted: seq<DeltaShift>,
                         createdTracks: seq<DeltaTrack>, removedTracks: seq<Id>, sequenceChanged: bool)

  function Describe(placed: Placed, created: bool): DeltaClip {
    var c := placed.clip;
    DeltaClip(c.id, placed.track.id, c.source, c.sourceIn, c.duration, c.timelineIn, created)
  }

  // ---- Keys in order ------------------------------------------------------------------

  ghost predicate Ascending(s: seq<Id>) {
    forall i, j :: 0 <= i < j < |s| ==> s[i] < s[j]
  }

  lemma {:induction false} Smallest(keys: set<Id>) returns (m: Id)
    requires keys != {}
    ensures m in keys && forall k :: k in keys ==> m <= k
    decreases |keys|
  {
    var first :| first in keys;
    m := first;
    if keys != {first} {
      var rest := Smallest(keys - {first});
      m := if rest < first then rest else first;
      assert forall k :: k in keys ==> k == first || k in keys - {first};
    }
  }

  /** The keys of an ordered map, as it is walked. */
  method Ordered(keys: set<Id>) returns (s: seq<Id>)
    ensures Ascending(s)
    ensures forall k :: k in keys <==> k in s
  {
    var left := keys;
    s := [];
    while left != {}
      invariant Ascending(s) && left <= keys
      invariant forall k :: k in keys <==> k in s || k in left
      invariant forall i, k :: 0 <= i < |s| && k in left ==> s[i] < k
      decreases |left|
    {
      ghost var least := Smallest(left);
      var m :| m in left && forall k :: k in left ==> m <= k;
      s := s + [m];
      left := left - {m};
    }
  }

  // ---- What happened to a clip -----------------------------------------------------------

  datatype Fate = Created | Untouched | Moved | Changed

  function FateOf(was: map<Id, Placed>, now: map<Id, Placed>, id: Id): Fate
    requires id in now
  {
    if id !in was then Created
    else if was[id].track.id != now[id].track.id then Changed
    else if Same(was[id].clip, now[id].clip) then Untouched
    else if Same(was[id].clip, now[id].clip.(timelineIn := was[id].clip.timelineIn)) then Moved
    else Changed
  }

  method OnlyMoved(before: Placed, after: Placed) returns (moved: bool)
    ensures moved <==> before.track.id == after.track.id &&
                       Same(before.clip, after.clip.(timelineIn := before.clip.timelineIn))
  {
    if before.track.id != after.track.id {
      return false;
    }
    moved := ClipsEqual(before.clip, after.clip.(timelineIn := before.clip.timelineIn));
  }

  /** The identities with a given fate, in order. */
  ghost function Fated(was: map<Id, Placed>, now: map<Id, Placed>, ids: seq<Id>, fates: set<Fate>): seq<Id>
    requires forall i :: 0 <= i < |ids| ==> ids[i] in now
  {
    if ids == [] then []
    else
      var last := |ids| - 1;
      Fated(was, now, ids[..last], fates) + if FateOf(was, now, ids[last]) in fates then [ids[last]] else []
  }

  /** Created and changed clips, and apart from them the clips that only moved. */
  method Classify(was: map<Id, Placed>, now: map<Id, Placed>, ids: seq<Id>) returns (individual: seq<Id>, moved: seq<Id>)
    requires forall i :: 0 <= i < |ids| ==> ids[i] in now
    ensures individual == Fated(was, now, ids, {Created, Changed})
    ensures moved == Fated(was, now, ids, {Moved})
  {
    individual, moved := [], [];
    var i := 0;
    while i < |ids|
      invariant 0 <= i <= |ids|
      invariant individual == Fated(was, now, ids[..i], {Created, Changed})
      invariant moved == Fated(was, now, ids[..i], {Moved})
    {
      var id := ids[i];
      assert ids[..i + 1][..i] == ids[..i];
      i := i + 1;
      if id !in was {
        individual := individual + [id];
        continue;
      }
      if was[id].track.id == now[id].track.id {
        var equal := ClipsEqual(was[id].clip, now[id].clip);
        if equal {
          continue;
        }
      }
      var only := OnlyMoved(was[id], now[id]);
      if only {
        moved := moved + [id];
        continue;
      }
      individual := individual + [id];
    }
    assert ids[..i] == ids;
  }

  // ---- Groups of moves by track -----------------------------------------------------------

  /** Those of the clips that were on a track, in order. */
  function OnTrack(was: map<Id, Placed>, ids: seq<Id>, track: Id): seq<Id>
    requires forall i :: 0 <= i < |ids| ==> ids[i] in was
  {
    if ids == [] then []
    else
      var last := |ids| - 1;
      OnTrack(was, ids[..last], track) + if was[ids[last]].track.id == track then [ids[last]] else []
  }

  method GroupByTrack(was: map<Id, Placed>, moved: seq<Id>) returns (byTrack: map<Id, seq<Id>>)
    requires forall i :: 0 <= i < |moved| ==> moved[i] in was
    ensures forall t :: t in byTrack <==> OnTrack(was, moved, t) != []
    ensures forall t :: t in byTrack ==> byTrack[t] == OnTrack(was, moved, t)
  {
    byTrack := map[];
    var i := 0;
    while i < |moved|
      invariant 0 <= i <= |moved|
      invariant forall t :: t in byTrack <==> OnTrack(was, moved[..i], t) != []
      invariant forall t :: t in byTrack ==> byTrack[t] == OnTrack(was, moved[..i], t)
    {
      var id := moved[i];
      var t := was[id].track.id;
      assert moved[..i + 1][..i] == moved[..i];
      byTrack := byTrack[t := (if t in byTrack then byTrack[t] else []) + [id]];
      i := i + 1;
    }
    assert moved[..i] == moved;
  }

  function StepOf(was: map<Id, Placed>, now: map<Id, Placed>, id: Id): real
    requires id in was && id in now
  {
    now[id].clip.timelineIn - was[id].clip.timelineIn
  }

  ghost predicate Grouped(was: map<Id, Placed>, now: map<Id, Placed>, group: seq<Id>) {
    group != [] && forall i :: 0 <= i < |group| ==> group[i] in was && group[i] in now
  }

  ghost predicate Uniform(was: map<Id, Placed>, now: map<Id, Placed>, group: seq<Id>)
    requires Grouped(was, now, group)
  {
    forall i :: 0 <= i < |group| ==> StepOf(was, now, group[i]) == StepOf(was, now, group[0])
  }

  /** The earliest position, before the change, of a clip of the group. */
  function FirstOf(was: map<Id, Placed>, group: seq<Id>): real
    requires group != [] && forall i :: 0 <= i < |group| ==> group[i] in was
  {
    var last := |group| - 1;
    var position := was[group[last]].clip.timelineIn;
    if last == 0 then position
    else if position < FirstOf(was, group[..last]) then position
    else FirstOf(was, group[..last])
  }

  /** Every clip of the track from that position on is in the group. */
  ghost predicate Covers(track: Track, group: seq<Id>, from: real) {
    forall j :: 0 <= j < |track.clips| && track.clips[j].timelineIn >= from ==> track.clips[j].id in group
  }

  ghost predicate Folds(was: map<Id, Placed>, now: map<Id, Placed>, group: seq<Id>)
    requires Grouped(was, now, group)
  {
    Uniform(was, now, group) && Covers(was[group[0]].track, group, FirstOf(was, group))
  }

  function ShiftFor(was: map<Id, Placed>, now: map<Id, Placed>, track: Id, group: seq<Id>): DeltaShift
    requires group != [] && forall i :: 0 <= i < |group| ==> group[i] in was && group[i] in now
  {
    DeltaShift(track, FirstOf(was, group), StepOf(was, now, group[0]), |group|)
  }

  method CoversTrack(track: Track, group: seq<Id>, from: real) returns (covers: bool)
    ensures covers <==> Covers(track, group, from)
  {
    var j := 0;
    while j < |track.clips|
      invariant 0 <= j <= |track.clips|
      invariant forall k :: 0 <= k < j && track.clips[k].timelineIn >= from ==> track.clips[k].id in group
    {
      if track.clips[j].timelineIn >= from {
        var listed := track.clips[j].id in group;
        if !listed {
          return false;
        }
      }
      j := j + 1;
    }
    return true;
  }

  /** Whether one rule explains a track's moves, and the rule. */
  method Fold(was: map<Id, Placed>, now: map<Id, Placed>, track: Id, group: seq<Id>)
    returns (covers: bool, shift: DeltaShift)
    requires Grouped(was, now, group)
    ensures covers <==> Folds(was, now, group)
    ensures shift == ShiftFor(was, now, track, group)
  {
    var step := now[group[0]].clip.timelineIn - was[group[0]].clip.timelineIn;
    var uniform := true;
    var from := was[group[0]].clip.timelineIn;
    assert group[..1][..0] == [];
    var i := 0;
    while i < |group|
      invariant 0 <= i <= |group|
      invariant uniform <==> forall k :: 0 <= k < i ==> StepOf(was, now, group[k]) == step
      invariant from == if i == 0 then was[group[0]].clip.timelineIn else FirstOf(was, group[..i])
    {
      var before, after := was[group[i]].clip.timelineIn, now[group[i]].clip.timelineIn;
      assert group[..i + 1][..i] == group[..i];
      if after - before != step {
        uniform := false;
      }
      if before < from {
        from := before;
      }
      i := i + 1;
    }
    assert group[..i] == group;
    covers := uniform;
    if covers {
      covers := CoversTrack(was[group[0]].track, group, from);
    }
    shift := DeltaShift(track, from, step, |group|);
  }

  // ---- Folding every track ------------------------------------------------------------------

  ghost predicate AllGrouped(was: map<Id, Placed>, now: map<Id, Placed>, byTrack: map<Id, seq<Id>>) {
    forall t :: t in byTrack ==> Grouped(was, now, byTrack[t])
  }

  /** The rules of the tracks that fold, in order. */
  ghost function ShiftsOf(was: map<Id, Placed>, now: map<Id, Placed>, byTrack: map<Id, seq<Id>>, tracks: seq<Id>)
    : seq<DeltaShift>
    requires AllGrouped(was, now, byTrack) && forall i :: 0 <= i < |tracks| ==> tracks[i] in byTrack
  {
    if tracks == [] then []
    else
      var last := |tracks| - 1;
      var group := byTrack[tracks[last]];
      ShiftsOf(was, now, byTrack, tracks[..last]) +
      if Folds(was, now, group) then [ShiftFor(was, now, tracks[last], group)] else []
  }

  /** The moved clips of the tracks that do not fold, track by track. */
  ghost function UnfoldedOf(was: map<Id, Placed>, now: map<Id, Placed>, byTrack: map<Id, seq<Id>>, tracks: seq<Id>)
    : seq<Id>
    requires AllGrouped(was, now, byTrack) && forall i :: 0 <= i < |tracks| ==> tracks[i] in byTrack
  {
    if tracks == [] then []
    else
      var last := |tracks| - 1;
      var group := byTrack[tracks[last]];
      UnfoldedOf(was, now, byTrack, tracks[..last]) + if Folds(was, now, group) then [] else group
  }

  method FoldTracks(was: map<Id, Placed>, now: map<Id, Placed>, byTrack: map<Id, seq<Id>>, tracks: seq<Id>)
    returns (shifted: seq<DeltaShift>, unfolded: seq<Id>)
    requires AllGrouped(was, now, byTrack) && forall i :: 0 <= i < |tracks| ==> tracks[i] in byTrack
    ensures shifted == ShiftsOf(was, now, byTrack, tracks)
    ensures unfolded == UnfoldedOf(was, now, byTrack, tracks)
  {
    shifted, unfolded := [], [];
    var i := 0;
    while i < |tracks|
      invariant 0 <= i <= |tracks|
      invariant shifted == ShiftsOf(was, now, byTrack, tracks[..i])
      invariant unfolded == UnfoldedOf(was, now, byTrack, tracks[..i])
    {
      var group := byTrack[tracks[i]];
      assert tracks[..i + 1][..i] == tracks[..i];
      var covers, shift := Fold(was, now, tracks[i], group);
      if covers {
        shifted := shifted + [shift];
      } else {
        unfolded := unfolded + group;
      }
      i := i + 1;
    }
    assert tracks[..i] == tracks;
  }

  // ---- Listing clips -------------------------------------------------------------------------

  function ListOf(was: map<Id, Placed>, now: map<Id, Placed>, ids: seq<Id>): (r: seq<DeltaClip>)
    requires forall i :: 0 <= i < |ids| ==> ids[i] in now
    ensures |r| == |ids| && forall i :: 0 <= i < |ids| ==> r[i] == Describe(now[ids[i]], ids[i] !in was)
  {
    if ids == [] then []
    else
      var last := |ids| - 1;
      ListOf(was, now, ids[..last]) + [Describe(now[ids[last]], ids[last] !in was)]
  }

  function TimeOrder(): Order<DeltaClip> {
    Order((a: DeltaClip, b: DeltaClip) => a.timelineIn < b.timelineIn)
  }

  /** Sorted by time, stably. */
  function ByTime(s: seq<DeltaClip>): seq<DeltaClip> {
    Sorted(TimeOrder(), s)
  }

  ghost predicate InTimeOrder(s: seq<DeltaClip>) {
    forall i, j :: 0 <= i < j < |s| ==> s[i].timelineIn <= s[j].timelineIn
  }

  lemma ByTimeSorted(s: seq<DeltaClip>)
    ensures InTimeOrder(ByTime(s)) && multiset(ByTime(s)) == multiset(s)
  {
    var o, r := TimeOrder(), ByTime(s);
    SortedInOrder(o, s);
    forall i, j | 0 <= i < j < |r|
      ensures r[i].timelineIn <= r[j].timelineIn
    {
      assert !o.Before(r[j], r[i]);
    }
  }

  // ---- Tracks and removed clips ---------------------------------------------------------------

  ghost predicate HasTrack(tracks: seq<Track>, id: Id) {
    exists i :: 0 <= i < |tracks| && tracks[i].id == id
  }

  method TrackIds(tracks: seq<Track>) returns (ids: set<Id>)
    ensures forall id :: id in ids <==> HasTrack(tracks, id)
  {
    ids := {};
    var i := 0;
    while i < |tracks|
      invariant 0 <= i <= |tracks|
      invariant forall id :: id in ids ==> HasTrack(tracks, id)
      invariant forall k :: 0 <= k < i ==> tracks[k].id in ids
    {
      assert HasTrack(tracks, tracks[i].id);
      ids := ids + {tracks[i].id};
      i := i + 1;
    }
  }

  /** The tracks that were not there before, in their own order. */
  ghost function CreatedOf(before: seq<Track>, after: seq<Track>): seq<DeltaTrack> {
    if after == [] then []
    else
      var last := after[|after| - 1];
      CreatedOf(before, after[..|after| - 1]) +
      if HasTrack(before, last.id) then [] else [DeltaTrack(last.id, last.kind, last.index)]
  }

  method CreatedTracks(wasIds: set<Id>, ghost before: seq<Track>, after: seq<Track>) returns (created: seq<DeltaTrack>)
    requires forall id :: id in wasIds <==> HasTrack(before, id)
    ensures created == CreatedOf(before, after)
  {
    created := [];
    var i := 0;
    while i < |after|
      invariant 0 <= i <= |after|
      invariant created == CreatedOf(before, after[..i])
    {
      assert after[..i + 1][..i] == after[..i];
      if after[i].id !in wasIds {
        created := created + [DeltaTrack(after[i].id, after[i].kind, after[i].index)];
      }
      i := i + 1;
    }
    assert after[..i] == after;
  }

  /** The identities that are gone, in order. */
  method Gone(was: set<Id>, now: set<Id>) returns (gone: seq<Id>)
    ensures Ascending(gone) && forall id :: id in gone <==> id in was && id !in now
  {
    gone := Ordered(was - now);
  }

  ghost predicate HeaderDiffers(before: Sequence, after: Sequence) {
    before.(tracks := []) != after.(tracks := [])
  }

  // ---- What the folding comes to ---------------------------------------------------------------

  lemma AscendingAppend(s: seq<Id>, x: Id)
    requires Ascending(s) && forall k :: k in s ==> k < x
    ensures Ascending(s + [x])
  {
    forall i | 0 <= i < |s|
      ensures s[i] < x
    {
      assert s[i] in s;
    }
  }

  lemma AscendingFront(ids: seq<Id>)
    requires ids != [] && Ascending(ids)
    ensures var front := ids[..|ids| - 1]; Ascending(front) && forall k :: k in front ==> k < ids[|ids| - 1]
  {
  }

  lemma {:induction false} FatedSome(was: map<Id, Placed>, now: map<Id, Placed>, ids: seq<Id>, fates: set<Fate>)
    requires forall i :: 0 <= i < |ids| ==> ids[i] in now
    ensures forall id :: id in Fated(was, now, ids, fates) <==> id in ids && FateOf(was, now, id) in fates
    ensures Ascending(ids) ==> Ascending(Fated(was, now, ids, fates))
  {
    if ids != [] {
      var last := |ids| - 1;
      FatedSome(was, now, ids[..last], fates);
      assert ids == ids[..last] + [ids[last]];
      if Ascending(ids) {
        AscendingFront(ids);
        AscendingAppend(Fated(was, now, ids[..last], fates), ids[last]);
      }
    }
  }

  lemma {:induction false} OnTrackSome(was: map<Id, Placed>, ids: seq<Id>, track: Id)
    requires forall i :: 0 <= i < |ids| ==> ids[i] in was
    ensures forall id :: id in OnTrack(was, ids, track) <==> id in ids && was[id].track.id == track
    ensures Ascending(ids) ==> Ascending(OnTrack(was, ids, track))
  {
    if ids != [] {
      var last := |ids| - 1;
      OnTrackSome(was, ids[..last], track);
      assert ids == ids[..last] + [ids[last]];
      if Ascending(ids) {
        AscendingFront(ids);
        AscendingAppend(OnTrack(was, ids[..last], track), ids[last]);
      }
    }
  }

  lemma {:induction false} AscendingSize(s: seq<Id>, all: set<Id>)
    requires Ascending(s) && forall k :: k in all <==> k in s
    ensures |all| == |s|
  {
    if s == [] {
      assert all == {};
    } else {
      var last := |s| - 1;
      assert s == s[..last] + [s[last]];
      assert s[last] !in s[..last];
      AscendingSize(s[..last], all - {s[last]});
    }
  }

  lemma {:induction false} FirstIsEarliest(was: map<Id, Placed>, group: seq<Id>)
    requires group != [] && forall i :: 0 <= i < |group| ==> group[i] in was
    ensures exists id :: id in group && was[id].clip.timelineIn == FirstOf(was, group)
    ensures forall id :: id in group ==> was[id].clip.timelineIn >= FirstOf(was, group)
  {
    var last := |group| - 1;
    assert group == group[..last] + [group[last]];
    assert group[last] in group;
    if last > 0 {
      FirstIsEarliest(was, group[..last]);
      var id :| id in group[..last] && was[id].clip.timelineIn == FirstOf(was, group[..last]);
      assert id in group;
    }
  }

  // ---- A delta's meaning ------------------------------------------------------------------------

  /** The clips of a track that moved and did nothing else. */
  ghost function MovedOn(was: map<Id, Placed>, now: map<Id, Placed>, track: Id): set<Id> {
    set id | id in was.Keys && id in now.Keys && FateOf(was, now, id) == Moved && was[id].track.id == track
  }

  /** The rule explains a track: it moves exactly the clips that moved, each by what it moved. */
  ghost predicate IsRule(was: map<Id, Placed>, now: map<Id, Placed>, s: DeltaShift) {
    var moved := MovedOn(was, now, s.track);
    && moved != {}
    && s.count == |moved|
    && (forall id :: id in moved ==> StepOf(was, now, id) == s.step)
    && (exists id :: id in moved && was[id].clip.timelineIn == s.from)
    && (forall id :: id in was && was[id].track.id == s.track ==>
          (was[id].clip.timelineIn >= s.from <==> id in moved))
  }

  ghost predicate HasShift(shifted: seq<DeltaShift>, track: Id) {
    exists i :: 0 <= i < |shifted| && shifted[i].track == track
  }

  ghost predicate TracksAscend(shifted: seq<DeltaShift>) {
    forall i, j :: 0 <= i < j < |shifted| ==> shifted[i].track < shifted[j].track
  }

  /** Every track that one rule explains has it, and no other track has a rule. */
  ghost predicate ShiftsExactly(was: map<Id, Placed>, now: map<Id, Placed>, shifted: seq<DeltaShift>) {
    && TracksAscend(shifted)
    && (forall i :: 0 <= i < |shifted| ==> IsRule(was, now, shifted[i]))
    && (forall s :: IsRule(was, now, s) ==> HasShift(shifted, s.track))
  }

  ghost predicate IsListed(clips: seq<DeltaClip>, id: Id) {
    exists i :: 0 <= i < |clips| && clips[i].id == id
  }

  /** Created, changed, or moved on a track without a rule. */
  ghost predicate NeedsListing(was: map<Id, Placed>, now: map<Id, Placed>, shifted: seq<DeltaShift>, id: Id) {
    id in now &&
    match FateOf(was, now, id)
    case Created => true
    case Changed => true
    case Untouched => false
    case Moved => !HasShift(shifted, was[id].track.id)
  }

  ghost predicate DistinctClips(clips: seq<DeltaClip>) {
    forall i, j :: 0 <= i < j < |clips| ==> clips[i].id != clips[j].id
  }

  /** Exactly the clips that need it are listed, once each, in time order and as they now are. */
  ghost predicate ListsExactly(was: map<Id, Placed>, now: map<Id, Placed>, shifted: seq<DeltaShift>, clips: seq<DeltaClip>) {
    && InTimeOrder(clips)
    && DistinctClips(clips)
    && (forall id :: IsListed(clips, id) <==> NeedsListing(was, now, shifted, id))
    && (forall i :: 0 <= i < |clips| ==>
          clips[i].id in now && clips[i] == Describe(now[clips[i].id], clips[i].id !in was))
  }

  ghost predicate IsDelta(before: Sequence, after: Sequence, d: Delta) {
    var was, now := Index(before), Index(after);
    && Ascending(d.removedClips)
    && (forall id :: id in d.removedClips <==> id in was && id !in now)
    && ShiftsExactly(was, now, d.shifted)
    && ListsExactly(was, now, d.shifted, d.clips)
    && d.createdTracks == CreatedOf(before.tracks, after.tracks)
    && Ascending(d.removedTracks)
    && (forall id :: id in d.removedTracks <==> HasTrack(before.tracks, id) && !HasTrack(after.tracks, id))
    && (d.sequenceChanged <==> HeaderDiffers(before, after))
  }

  ghost predicate IsEmpty(d: Delta) {
    d.clips == [] && d.removedClips == [] && d.shifted == [] && d.createdTracks == [] && d.removedTracks == [] &&
    !d.sequenceChanged
  }
}
