/** The computed delta is the delta: folding and listing come to exactly what they should. */
module DeltaComputation {
  import opened Clips
  import opened Sequences
  import opened DocumentDelta

  // ---- One track -----------------------------------------------------------------------

  /** The group of a track is its moved clips, in order. */
  ghost predicate IsGroup(was: map<Id, Placed>, now: map<Id, Placed>, track: Id, group: seq<Id>) {
    Ascending(group) && forall id :: id in group <==> id in MovedOn(was, now, track)
  }

  /** Every indexed clip of the track from that position on is in the group. */
  ghost predicate CoversIndex(was: map<Id, Placed>, track: Id, group: seq<Id>, from: real) {
    forall k :: k in was && was[k].track.id == track && was[k].clip.timelineIn >= from ==> k in group
  }

  /** Scanning the track's clips is the same as going through the index. */
  lemma CoversIndexed(before: Sequence, track: Id, group: seq<Id>, id: Id, from: real)
    requires UniqueClips(before) && UniqueTracks(before)
    requires id in Index(before) && Index(before)[id].track.id == track
    ensures Covers(Index(before)[id].track, group, from) <==> CoversIndex(Index(before), track, group, from)
  {
    IndexSound(before, id);
    var i, j :| IsPlaced(before.tracks, i, j, id, Index(before)[id]);
    if Covers(before.tracks[i], group, from) {
      forall k | k in Index(before) && Index(before)[k].track.id == track && Index(before)[k].clip.timelineIn >= from
        ensures k in group
      {
        OneOfTrack(before, i, group, from, k);
      }
    }
    if CoversIndex(Index(before), track, group, from) {
      forall b | 0 <= b < |before.tracks[i].clips| && before.tracks[i].clips[b].timelineIn >= from
        ensures before.tracks[i].clips[b].id in group
      {
        IndexComplete(before, i, b);
      }
    }
  }

  lemma OneOfTrack(before: Sequence, i: nat, group: seq<Id>, from: real, k: Id)
    requires UniqueTracks(before) && i < |before.tracks| && Covers(before.tracks[i], group, from)
    requires k in Index(before) && Index(before)[k].track.id == before.tracks[i].id
    requires Index(before)[k].clip.timelineIn >= from
    ensures k in group
  {
    IndexSound(before, k);
    var a, b :| IsPlaced(before.tracks, a, b, k, Index(before)[k]);
    assert a == i;
  }

  lemma GroupedIn(was: map<Id, Placed>, now: map<Id, Placed>, track: Id, group: seq<Id>)
    requires group != [] && IsGroup(was, now, track, group)
    ensures Grouped(was, now, group)
  {
    forall i | 0 <= i < |group|
      ensures group[i] in was && group[i] in now
    {
      assert group[i] in group;
    }
  }

  /** When the group folds, its rule explains the track. */
  lemma FoldIsRule(before: Sequence, now: map<Id, Placed>, track: Id, group: seq<Id>)
    requires UniqueClips(before) && UniqueTracks(before)
    requires group != [] && IsGroup(Index(before), now, track, group) && Grouped(Index(before), now, group)
    requires Folds(Index(before), now, group)
    ensures IsRule(Index(before), now, ShiftFor(Index(before), now, track, group))
  {
    var was := Index(before);
    var s := ShiftFor(was, now, track, group);
    assert group[0] in group;
    FirstIsEarliest(was, group);
    CoversIndexed(before, track, group, group[0], s.from);
    AscendingSize(group, MovedOn(was, now, track));
    forall id | id in MovedOn(was, now, track)
      ensures StepOf(was, now, id) == s.step
    {
      assert id in group;
    }
    var id :| id in group && was[id].clip.timelineIn == s.from;
    assert id in MovedOn(was, now, track);
  }

  /** When any rule explains the track, the group folds. */
  lemma RuleFolds(before: Sequence, now: map<Id, Placed>, s: DeltaShift, group: seq<Id>)
    requires UniqueClips(before) && UniqueTracks(before)
    requires IsRule(Index(before), now, s)
    requires group != [] && IsGroup(Index(before), now, s.track, group) && Grouped(Index(before), now, group)
    ensures Folds(Index(before), now, group)
  {
    var was := Index(before);
    FirstIsEarliest(was, group);
    forall i | 0 <= i < |group|
      ensures StepOf(was, now, group[i]) == s.step
    {
      assert group[i] in group;
    }
    var first :| first in group && was[first].clip.timelineIn == FirstOf(was, group);
    assert first in MovedOn(was, now, s.track);
    assert group[0] in group;
    CoversIndexed(before, s.track, group, group[0], FirstOf(was, group));
  }

  // ---- Every track -----------------------------------------------------------------------

  ghost predicate AreGroups(was: map<Id, Placed>, now: map<Id, Placed>, byTrack: map<Id, seq<Id>>) {
    && (forall t :: t in byTrack ==> byTrack[t] != [] && IsGroup(was, now, t, byTrack[t]))
    && (forall t :: MovedOn(was, now, t) != {} ==> t in byTrack)
  }

  /** The rule of a track that folds. */
  ghost predicate IsFolded(was: map<Id, Placed>, now: map<Id, Placed>, byTrack: map<Id, seq<Id>>, tracks: seq<Id>,
                           s: DeltaShift)
    requires AllGrouped(was, now, byTrack)
  {
    && s.track in tracks
    && s.track in byTrack
    && Folds(was, now, byTrack[s.track])
    && s == ShiftFor(was, now, s.track, byTrack[s.track])
  }

  lemma {:induction false} ShiftsSound(was: map<Id, Placed>, now: map<Id, Placed>, byTrack: map<Id, seq<Id>>, tracks: seq<Id>,
                                       i: nat)
    requires AllGrouped(was, now, byTrack) && forall k :: 0 <= k < |tracks| ==> tracks[k] in byTrack
    requires i < |ShiftsOf(was, now, byTrack, tracks)|
    ensures IsFolded(was, now, byTrack, tracks, ShiftsOf(was, now, byTrack, tracks)[i])
  {
    var before, t := tracks[..|tracks| - 1], tracks[|tracks| - 1];
    var front := ShiftsOf(was, now, byTrack, before);
    assert tracks == before + [t];
    if i < |front| {
      ShiftsSound(was, now, byTrack, before, i);
      assert ShiftsOf(was, now, byTrack, tracks)[i] == front[i];
    } else {
      assert ShiftsOf(was, now, byTrack, tracks)[i] == ShiftFor(was, now, t, byTrack[t]);
    }
  }

  lemma {:induction false} ShiftsAscend(was: map<Id, Placed>, now: map<Id, Placed>, byTrack: map<Id, seq<Id>>, tracks: seq<Id>)
    requires AllGrouped(was, now, byTrack) && forall i :: 0 <= i < |tracks| ==> tracks[i] in byTrack
    requires Ascending(tracks)
    ensures TracksAscend(ShiftsOf(was, now, byTrack, tracks))
  {
    if tracks != [] {
      var before, t := tracks[..|tracks| - 1], tracks[|tracks| - 1];
      var front := ShiftsOf(was, now, byTrack, before);
      ShiftsAscend(was, now, byTrack, before);
      AscendingFront(tracks);
      forall i | 0 <= i < |front|
        ensures front[i].track < t
      {
        ShiftsSound(was, now, byTrack, before, i);
      }
    }
  }

  lemma {:induction false} ShiftsAll(was: map<Id, Placed>, now: map<Id, Placed>, byTrack: map<Id, seq<Id>>, tracks: seq<Id>,
                                     t: Id)
    requires AllGrouped(was, now, byTrack) && forall i :: 0 <= i < |tracks| ==> tracks[i] in byTrack
    requires t in tracks && t in byTrack && Folds(was, now, byTrack[t])
    ensures HasShift(ShiftsOf(was, now, byTrack, tracks), t)
  {
    var last := |tracks| - 1;
    var front, r := ShiftsOf(was, now, byTrack, tracks[..last]), ShiftsOf(was, now, byTrack, tracks);
    if t == tracks[last] {
      assert r[|r| - 1].track == t;
    } else {
      assert tracks == tracks[..last] + [tracks[last]];
      ShiftsAll(was, now, byTrack, tracks[..last], t);
      var i :| 0 <= i < |front| && front[i].track == t;
      assert r[i] == front[i];
    }
  }

  lemma ShiftsAreExact(before: Sequence, now: map<Id, Placed>, byTrack: map<Id, seq<Id>>, tracks: seq<Id>)
    requires UniqueClips(before) && UniqueTracks(before)
    requires AllGrouped(Index(before), now, byTrack) && AreGroups(Index(before), now, byTrack)
    requires Ascending(tracks) && forall t :: t in byTrack <==> t in tracks
    requires forall i :: 0 <= i < |tracks| ==> tracks[i] in byTrack
    ensures ShiftsExactly(Index(before), now, ShiftsOf(Index(before), now, byTrack, tracks))
    ensures forall t :: t in byTrack ==>
              (HasShift(ShiftsOf(Index(before), now, byTrack, tracks), t) <==> Folds(Index(before), now, byTrack[t]))
  {
    var was := Index(before);
    var r := ShiftsOf(was, now, byTrack, tracks);
    ShiftsAscend(was, now, byTrack, tracks);
    forall i | 0 <= i < |r|
      ensures IsRule(was, now, r[i]) && r[i].track in byTrack && Folds(was, now, byTrack[r[i].track])
    {
      ShiftsSound(was, now, byTrack, tracks, i);
      FoldIsRule(before, now, r[i].track, byTrack[r[i].track]);
    }
    forall t | t in byTrack && Folds(was, now, byTrack[t])
      ensures HasShift(r, t)
    {
      ShiftsAll(was, now, byTrack, tracks, t);
    }
    forall s | IsRule(was, now, s)
      ensures HasShift(r, s.track)
    {
      RuleFolds(before, now, s, byTrack[s.track]);
    }
  }

  /** Moved, on one of the tracks, and that track does not fold. */
  ghost predicate IsUnfolded(was: map<Id, Placed>, now: map<Id, Placed>, byTrack: map<Id, seq<Id>>, tracks: seq<Id>, id: Id)
    requires AllGrouped(was, now, byTrack)
  {
    && id in was
    && id in MovedOn(was, now, was[id].track.id)
    && was[id].track.id in tracks
    && was[id].track.id in byTrack
    && !Folds(was, now, byTrack[was[id].track.id])
  }

  /** One more track adds its group, or nothing if it folds. */
  lemma UnfoldedStep(was: map<Id, Placed>, now: map<Id, Placed>, byTrack: map<Id, seq<Id>>, tracks: seq<Id>, t: Id, id: Id)
    requires AllGrouped(was, now, byTrack) && AreGroups(was, now, byTrack) && t in byTrack && t !in tracks
    ensures IsUnfolded(was, now, byTrack, tracks + [t], id) <==>
            IsUnfolded(was, now, byTrack, tracks, id) || (!Folds(was, now, byTrack[t]) && id in byTrack[t])
    ensures IsUnfolded(was, now, byTrack, tracks, id) ==> id !in byTrack[t]
  {
  }

  lemma {:induction false} UnfoldedSome(was: map<Id, Placed>, now: map<Id, Placed>, byTrack: map<Id, seq<Id>>, tracks: seq<Id>)
    requires AllGrouped(was, now, byTrack) && AreGroups(was, now, byTrack)
    requires Ascending(tracks) && forall i :: 0 <= i < |tracks| ==> tracks[i] in byTrack
    ensures forall id :: id in UnfoldedOf(was, now, byTrack, tracks) <==> IsUnfolded(was, now, byTrack, tracks, id)
  {
    if tracks != [] {
      var before, t := tracks[..|tracks| - 1], tracks[|tracks| - 1];
      assert tracks == before + [t];
      AscendingFront(tracks);
      UnfoldedSome(was, now, byTrack, before);
      forall id
        ensures id in UnfoldedOf(was, now, byTrack, tracks) <==> IsUnfolded(was, now, byTrack, tracks, id)
      {
        UnfoldedStep(was, now, byTrack, before, t, id);
      }
    }
  }

  lemma {:induction false} UnfoldedDistinct(was: map<Id, Placed>, now: map<Id, Placed>, byTrack: map<Id, seq<Id>>, tracks: seq<Id>)
    requires AllGrouped(was, now, byTrack) && AreGroups(was, now, byTrack)
    requires Ascending(tracks) && forall i :: 0 <= i < |tracks| ==> tracks[i] in byTrack
    ensures Distinct(UnfoldedOf(was, now, byTrack, tracks))
  {
    if tracks != [] {
      var before, t := tracks[..|tracks| - 1], tracks[|tracks| - 1];
      AscendingFront(tracks);
      UnfoldedDistinct(was, now, byTrack, before);
      UnfoldedSome(was, now, byTrack, before);
      var front := UnfoldedOf(was, now, byTrack, before);
      forall id | id in front
        ensures id !in byTrack[t]
      {
        UnfoldedStep(was, now, byTrack, before, t, id);
      }
      assert IsGroup(was, now, t, byTrack[t]);
      DistinctJoin(front, byTrack[t]);
    }
  }

  lemma DistinctJoin(a: seq<Id>, b: seq<Id>)
    requires Distinct(a) && Distinct(b) && forall id :: id in a ==> id !in b
    ensures Distinct(a + b)
  {
    forall i, j | 0 <= i < |a| && 0 <= j < |b|
      ensures a[i] != b[j]
    {
      assert a[i] in a && b[j] in b;
    }
  }

  // ---- The listing ---------------------------------------------------------------------------

  ghost predicate Keyed(index: map<Id, Placed>) {
    forall id :: id in index ==> index[id].clip.id == id
  }

  lemma IndexKeyed(s: Sequence)
    ensures Keyed(Index(s))
  {
    forall id | id in Index(s)
      ensures Index(s)[id].clip.id == id
    {
      IndexSound(s, id);
    }
  }

  lemma ListDistinct(was: map<Id, Placed>, now: map<Id, Placed>, ids: seq<Id>)
    requires Keyed(now) && Distinct(ids) && forall i :: 0 <= i < |ids| ==> ids[i] in now
    ensures var r := ListOf(was, now, ids);
            DistinctClips(r) && (forall id :: IsListed(r, id) <==> id in ids)
  {
  }

  /** Sorting keeps what is listed and lists nothing twice. */
  lemma SortedKeeps(a: seq<DeltaClip>, b: seq<DeltaClip>)
    requires multiset(a) == multiset(b) && DistinctClips(a)
    ensures DistinctClips(b) && forall id :: IsListed(a, id) <==> IsListed(b, id)
    ensures forall i :: 0 <= i < |b| ==> b[i] in a
  {
    forall x | x in b
      ensures x in a
    {
      assert x in multiset(b);
    }
    forall x | x in a
      ensures x in b
    {
      assert x in multiset(a);
    }
    forall i, j | 0 <= i < j < |b|
      ensures b[i].id != b[j].id
    {
      if b[i].id == b[j].id {
        assert b[i] in a && b[j] in a;
        Twice(b, i, j);
        Once(a, b[i]);
      }
    }
    forall id
      ensures IsListed(a, id) <==> IsListed(b, id)
    {
      if IsListed(a, id) {
        var i :| 0 <= i < |a| && a[i].id == id;
        assert a[i] in b;
      }
      if IsListed(b, id) {
        var i :| 0 <= i < |b| && b[i].id == id;
        assert b[i] in a;
      }
    }
  }

  lemma Twice(s: seq<DeltaClip>, i: nat, j: nat)
    requires i < j < |s|
    ensures s[i] == s[j] ==> multiset(s)[s[i]] >= 2
  {
    assert s == s[..i] + [s[i]] + s[i + 1..j] + [s[j]] + s[j + 1..];
  }

  lemma {:induction false} Once(s: seq<DeltaClip>, x: DeltaClip)
    requires DistinctClips(s)
    ensures multiset(s)[x] <= 1
  {
    if s != [] {
      Once(s[1..], x);
      assert s == [s[0]] + s[1..];
      if s[0] == x {
        assert x !in s[1..];
        assert x !in multiset(s[1..]);
      }
    }
  }

  lemma ListingIsExact(was: map<Id, Placed>, now: map<Id, Placed>, shifted: seq<DeltaShift>, ids: seq<Id>,
                       clips: seq<DeltaClip>)
    requires Keyed(now) && Distinct(ids) && forall id :: id in ids <==> NeedsListing(was, now, shifted, id)
    requires forall i :: 0 <= i < |ids| ==> ids[i] in now
    requires clips == ByTime(ListOf(was, now, ids))
    ensures ListsExactly(was, now, shifted, clips)
  {
    var r := ListOf(was, now, ids);
    ByTimeSorted(r);
    ListDistinct(was, now, ids);
    SortedKeeps(r, clips);
    forall i | 0 <= i < |clips|
      ensures clips[i].id in now && clips[i] == Describe(now[clips[i].id], clips[i].id !in was)
    {
      var k :| 0 <= k < |r| && r[k] == clips[i];
      assert r[k] == Describe(now[ids[k]], ids[k] !in was);
    }
  }

  // ---- The computation -----------------------------------------------------------------------

  lemma GroupsRight(was: map<Id, Placed>, now: map<Id, Placed>, ids: seq<Id>, moved: seq<Id>, byTrack: map<Id, seq<Id>>)
    requires Ascending(ids) && forall k :: k in now <==> k in ids
    requires forall i :: 0 <= i < |ids| ==> ids[i] in now
    requires moved == Fated(was, now, ids, {Moved})
    requires forall i :: 0 <= i < |moved| ==> moved[i] in was
    requires forall t :: t in byTrack <==> OnTrack(was, moved, t) != []
    requires forall t :: t in byTrack ==> byTrack[t] == OnTrack(was, moved, t)
    ensures AllGrouped(was, now, byTrack) && AreGroups(was, now, byTrack)
  {
    FatedSome(was, now, ids, {Moved});
    forall t
      ensures t in byTrack ==> Grouped(was, now, byTrack[t]) && IsGroup(was, now, t, byTrack[t])
      ensures MovedOn(was, now, t) != {} ==> t in byTrack
    {
      OnTrackSome(was, moved, t);
      if t in byTrack {
        assert IsGroup(was, now, t, byTrack[t]);
        GroupedIn(was, now, t, byTrack[t]);
      }
      if MovedOn(was, now, t) != {} {
        var id :| id in MovedOn(was, now, t);
        assert id in OnTrack(was, moved, t);
      }
    }
  }

  lemma MovedIn(was: map<Id, Placed>, now: map<Id, Placed>, ids: seq<Id>, moved: seq<Id>)
    requires forall i :: 0 <= i < |ids| ==> ids[i] in now
    requires moved == Fated(was, now, ids, {Moved})
    ensures forall i :: 0 <= i < |moved| ==> moved[i] in was
  {
    FatedSome(was, now, ids, {Moved});
    forall i | 0 <= i < |moved|
      ensures moved[i] in was
    {
      assert moved[i] in moved;
    }
  }

  lemma NeededOnce(was: map<Id, Placed>, now: map<Id, Placed>, byTrack: map<Id, seq<Id>>, tracks: seq<Id>,
                   shifted: seq<DeltaShift>, id: Id)
    requires AllGrouped(was, now, byTrack) && AreGroups(was, now, byTrack)
    requires forall t :: t in byTrack <==> t in tracks
    requires forall t :: t in byTrack ==> (HasShift(shifted, t) <==> Folds(was, now, byTrack[t]))
    ensures NeedsListing(was, now, shifted, id) <==>
            (id in now && FateOf(was, now, id) in {Created, Changed}) || IsUnfolded(was, now, byTrack, tracks, id)
    ensures IsUnfolded(was, now, byTrack, tracks, id) ==> FateOf(was, now, id) == Moved
  {
    if id in now && FateOf(was, now, id) == Moved {
      assert id in MovedOn(was, now, was[id].track.id);
    }
  }

  lemma ListedRight(was: map<Id, Placed>, now: map<Id, Placed>, ids: seq<Id>, individual: seq<Id>, unfolded: seq<Id>,
                    byTrack: map<Id, seq<Id>>, tracks: seq<Id>, shifted: seq<DeltaShift>)
    requires Ascending(ids) && forall k :: k in now <==> k in ids
    requires forall i :: 0 <= i < |ids| ==> ids[i] in now
    requires AllGrouped(was, now, byTrack) && AreGroups(was, now, byTrack)
    requires Ascending(tracks) && (forall t :: t in byTrack <==> t in tracks)
    requires forall i :: 0 <= i < |tracks| ==> tracks[i] in byTrack
    requires forall t :: t in byTrack ==> (HasShift(shifted, t) <==> Folds(was, now, byTrack[t]))
    requires individual == Fated(was, now, ids, {Created, Changed})
    requires unfolded == UnfoldedOf(was, now, byTrack, tracks)
    ensures Distinct(individual + unfolded)
    ensures forall id :: id in individual + unfolded <==> NeedsListing(was, now, shifted, id)
  {
    IndividualSome(was, now, ids);
    UnfoldedSome(was, now, byTrack, tracks);
    UnfoldedDistinct(was, now, byTrack, tracks);
    forall id
      ensures id in individual || id in unfolded <==> NeedsListing(was, now, shifted, id)
      ensures id in individual ==> id !in unfolded
    {
      NeededOnce(was, now, byTrack, tracks, shifted, id);
    }
    DistinctJoin(individual, unfolded);
  }

  lemma IndividualSome(was: map<Id, Placed>, now: map<Id, Placed>, ids: seq<Id>)
    requires Ascending(ids) && forall k :: k in now <==> k in ids
    requires forall i :: 0 <= i < |ids| ==> ids[i] in now
    ensures var individual := Fated(was, now, ids, {Created, Changed});
            Distinct(individual) &&
            forall id :: id in individual <==> id in now && FateOf(was, now, id) in {Created, Changed}
  {
    FatedSome(was, now, ids, {Created, Changed});
  }

  /** What is listed is in the new state. */
  lemma ListedIn(was: map<Id, Placed>, now: map<Id, Placed>, ids: seq<Id>, byTrack: map<Id, seq<Id>>, tracks: seq<Id>)
    requires forall i :: 0 <= i < |ids| ==> ids[i] in now
    requires AllGrouped(was, now, byTrack) && AreGroups(was, now, byTrack)
    requires Ascending(tracks) && forall i :: 0 <= i < |tracks| ==> tracks[i] in byTrack
    ensures var all := Fated(was, now, ids, {Created, Changed}) + UnfoldedOf(was, now, byTrack, tracks);
            forall i :: 0 <= i < |all| ==> all[i] in now
  {
    var all := Fated(was, now, ids, {Created, Changed}) + UnfoldedOf(was, now, byTrack, tracks);
    FatedSome(was, now, ids, {Created, Changed});
    UnfoldedSome(was, now, byTrack, tracks);
    forall i | 0 <= i < |all|
      ensures all[i] in now
    {
      assert all[i] in all;
    }
  }

  lemma ChangedRight(before: Sequence, now: map<Id, Placed>, ids: seq<Id>, individual: seq<Id>, unfolded: seq<Id>,
                     byTrack: map<Id, seq<Id>>, tracks: seq<Id>, shifted: seq<DeltaShift>, clips: seq<DeltaClip>)
    requires UniqueClips(before) && UniqueTracks(before) && Keyed(now)
    requires Ascending(ids) && forall k :: k in now <==> k in ids
    requires forall i :: 0 <= i < |ids| ==> ids[i] in now
    requires AllGrouped(Index(before), now, byTrack) && AreGroups(Index(before), now, byTrack)
    requires Ascending(tracks) && (forall t :: t in byTrack <==> t in tracks)
    requires forall i :: 0 <= i < |tracks| ==> tracks[i] in byTrack
    requires shifted == ShiftsOf(Index(before), now, byTrack, tracks)
    requires individual == Fated(Index(before), now, ids, {Created, Changed})
    requires unfolded == UnfoldedOf(Index(before), now, byTrack, tracks)
    requires forall i :: 0 <= i < |individual + unfolded| ==> (individual + unfolded)[i] in now
    requires clips == ByTime(ListOf(Index(before), now, individual + unfolded))
    ensures ShiftsExactly(Index(before), now, shifted) && ListsExactly(Index(before), now, shifted, clips)
  {
    ShiftsAreExact(before, now, byTrack, tracks);
    ListedRight(Index(before), now, ids, individual, unfolded, byTrack, tracks, shifted);
    ListingIsExact(Index(before), now, shifted, individual + unfolded, clips);
  }

  /** Whether anything changed, and what. */
  method ComputeDocumentDelta(before: Sequence, after: Sequence) returns (changed: bool, delta: Delta)
    ensures UniqueClips(before) && UniqueTracks(before) ==> IsDelta(before, after, delta)
    ensures changed <==> !IsEmpty(delta)
  {
    var sequenceChanged := before.name != after.name || before.width != after.width || before.height != after.height ||
                           before.rate.num != after.rate.num || before.rate.den != after.rate.den;
    var wasTracks := TrackIds(before.tracks);
    var createdTracks := CreatedTracks(wasTracks, before.tracks, after.tracks);
    var nowTracks := TrackIds(after.tracks);
    var removedTracks := Gone(wasTracks, nowTracks);

    var was := IndexClips(before);
    var now := IndexClips(after);
    var removedClips := Gone(was.Keys, now.Keys);

    var clips, shifted := ChangedClips(before, was, now);
    IndexKeyed(after);
    delta := Delta(clips, removedClips, shifted, createdTracks, removedTracks, sequenceChanged);
    changed := |clips| > 0 || |removedClips| > 0 || |shifted| > 0 || |createdTracks| > 0 || |removedTracks| > 0 ||
               sequenceChanged;
  }

  method ChangedClips(ghost before: Sequence, was: map<Id, Placed>, now: map<Id, Placed>)
    returns (clips: seq<DeltaClip>, shifted: seq<DeltaShift>)
    requires was == Index(before)
    ensures UniqueClips(before) && UniqueTracks(before) && Keyed(now) ==>
              ShiftsExactly(was, now, shifted) && ListsExactly(was, now, shifted, clips)
  {
    var ids := Ordered(now.Keys);
    forall i | 0 <= i < |ids| ensures ids[i] in now {
      assert ids[i] in ids;
    }
    var individual, moved := Classify(was, now, ids);
    MovedIn(was, now, ids, moved);
    var byTrack := GroupByTrack(was, moved);
    GroupsRight(was, now, ids, moved, byTrack);
    var tracks := Ordered(byTrack.Keys);
    forall i | 0 <= i < |tracks| ensures tracks[i] in byTrack {
      assert tracks[i] in tracks;
    }
    var unfolded;
    shifted, unfolded := FoldTracks(was, now, byTrack, tracks);
    ListedIn(was, now, ids, byTrack, tracks);
    clips := ByTime(ListOf(was, now, individual + unfolded));
    if UniqueClips(before) && UniqueTracks(before) && Keyed(now) {
      ChangedRight(before, now, ids, individual, unfolded, byTrack, tracks, shifted, clips);
    }
  }
}
