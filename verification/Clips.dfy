/**
 Clips on tracks, when two clips count as the same, and the index of a
 timeline's clips. Identities are ordered values compared only with each
 other; times are exact rationals.
 */
module Clips {
  type Id = nat

  datatype Fraction = Fraction(num: int, den: int)

  datatype Effect = Effect(id: Id, kind: string, params: map<string, Fraction>)

  datatype Clip = Clip(
    id: Id,
    source: Id,
    sourceIn: real,
    duration: real,
    timelineIn: real,
    includeAudio: bool,
    linkGroup: Id,
    syncAnchor: Id,
    syncReference: real,
    effects: seq<Effect>,
    captionGroup: Id,
    captionText: string,
    opacity: Fraction,
    audioGain: Fraction,
    audioFadeIn: real,
    audioFadeOut: real)

  datatype Track = Track(id: Id, kind: string, index: int, clips: seq<Clip>)

  datatype Sequence = Sequence(name: string, width: int, height: int, rate: Fraction, tracks: seq<Track>)

  // ---- When clips are the same ------------------------------------------------------

  /** The clip with its audio settings taken out of consideration. */
  function Silent(c: Clip): Clip {
    c.(audioGain := Fraction(0, 1), audioFadeIn := 0.0, audioFadeOut := 0.0)
  }

  /** Equal in every field except the three audio settings. */
  predicate Same(left: Clip, right: Clip) {
    Silent(left) == Silent(right)
  }

  /** Whatever is done to a clip's audio settings, and nothing else, leaves it the same. */
  lemma SameIff(left: Clip, right: Clip)
    ensures Same(left, right) <==>
            right == left.(audioGain := right.audioGain, audioFadeIn := right.audioFadeIn, audioFadeOut := right.audioFadeOut)
  {
    var mixed := left.(audioGain := right.audioGain, audioFadeIn := right.audioFadeIn, audioFadeOut := right.audioFadeOut);
    if Same(left, right) {
      assert Silent(left).(audioGain := right.audioGain, audioFadeIn := right.audioFadeIn,
                           audioFadeOut := right.audioFadeOut) == mixed;
      assert Silent(right).(audioGain := right.audioGain, audioFadeIn := right.audioFadeIn,
                            audioFadeOut := right.audioFadeOut) == right;
    }
  }

  lemma {:induction false} SameSize<K>(a: set<K>, b: set<K>)
    requires a <= b && |a| == |b|
    ensures a == b
    decreases |a|
  {
    if a != {} {
      var k :| k in a;
      SameSize(a - {k}, b - {k});
      assert a == (a - {k}) + {k} && b == (b - {k}) + {k};
    } else {
      assert |b| == 0;
    }
  }

  method ParamsEqual(a: map<string, Fraction>, b: map<string, Fraction>) returns (same: bool)
    ensures same <==> a == b
  {
    if |a| != |b| {
      return false;
    }
    var left := a.Keys;
    while left != {}
      invariant left <= a.Keys
      invariant forall k :: k in a.Keys - left ==> k in b && b[k] == a[k]
      decreases |left|
    {
      var key :| key in left;
      if key !in b || b[key].num != a[key].num || b[key].den != a[key].den {
        return false;
      }
      left := left - {key};
    }
    SameSize(a.Keys, b.Keys);
    return true;
  }

  method EffectsEqual(a: seq<Effect>, b: seq<Effect>) returns (same: bool)
    ensures same <==> a == b
  {
    if |a| != |b| {
      return false;
    }
    var index := 0;
    while index < |a|
      invariant 0 <= index <= |a|
      invariant forall i :: 0 <= i < index ==> a[i] == b[i]
    {
      if a[index].id != b[index].id || a[index].kind != b[index].kind {
        return false;
      }
      var params := ParamsEqual(a[index].params, b[index].params);
      if !params {
        return false;
      }
      index := index + 1;
    }
    return true;
  }

  /** Compares field by field; the audio settings are not among the fields compared. */
  method ClipsEqual(left: Clip, right: Clip) returns (same: bool)
    ensures same <==> Same(left, right)
  {
    if left.id != right.id || left.source != right.source || left.includeAudio != right.includeAudio ||
       left.linkGroup != right.linkGroup || left.syncAnchor != right.syncAnchor ||
       left.captionGroup != right.captionGroup || left.captionText != right.captionText {
      return false;
    }
    if left.sourceIn != right.sourceIn || left.duration != right.duration ||
       left.timelineIn != right.timelineIn || left.syncReference != right.syncReference {
      return false;
    }
    if left.opacity.num != right.opacity.num || left.opacity.den != right.opacity.den {
      return false;
    }
    same := EffectsEqual(left.effects, right.effects);
  }

  // ---- The index of a timeline's clips --------------------------------------------------

  datatype Placed = Placed(clip: Clip, track: Track)

  /** A later clip with the same identity replaces an earlier one. */
  function IndexTrack(index: map<Id, Placed>, track: Track, j: nat): map<Id, Placed>
    requires j <= |track.clips|
  {
    if j == 0 then index
    else IndexTrack(index, track, j - 1)[track.clips[j - 1].id := Placed(track.clips[j - 1], track)]
  }

  function IndexTracks(tracks: seq<Track>, i: nat): map<Id, Placed>
    requires i <= |tracks|
  {
    if i == 0 then map[]
    else IndexTrack(IndexTracks(tracks, i - 1), tracks[i - 1], |tracks[i - 1].clips|)
  }

  function Index(s: Sequence): map<Id, Placed> {
    IndexTracks(s.tracks, |s.tracks|)
  }

  method IndexClips(s: Sequence) returns (index: map<Id, Placed>)
    ensures index == Index(s)
  {
    index := map[];
    var i := 0;
    while i < |s.tracks|
      invariant 0 <= i <= |s.tracks|
      invariant index == IndexTracks(s.tracks, i)
    {
      var track, j := s.tracks[i], 0;
      while j < |track.clips|
        invariant 0 <= j <= |track.clips|
        invariant index == IndexTrack(IndexTracks(s.tracks, i), track, j)
      {
        index := index[track.clips[j].id := Placed(track.clips[j], track)];
        j := j + 1;
      }
      i := i + 1;
    }
  }

  /** The entry is one of the timeline's clips, under its own identity. */
  ghost predicate IsPlaced(tracks: seq<Track>, i: int, j: int, id: Id, p: Placed) {
    0 <= i < |tracks| && 0 <= j < |tracks[i].clips| && p == Placed(tracks[i].clips[j], tracks[i]) && p.clip.id == id
  }

  ghost predicate Earlier(c: int, e: int, i: int, j: int) {
    c < i || (c == i && e < j)
  }

  ghost predicate IsClip(tracks: seq<Track>, c: int, e: int, id: Id) {
    0 <= c < |tracks| && 0 <= e < |tracks[c].clips| && tracks[c].clips[e].id == id
  }

  /** The entry is the last clip of that identity before the j-th clip of the i-th track. */
  ghost predicate IsIndexed(tracks: seq<Track>, i: int, j: int, id: Id, p: Placed) {
    exists a, b :: IsPlaced(tracks, a, b, id, p) && Earlier(a, b, i, j) &&
                   forall c, e :: IsClip(tracks, c, e, id) && Earlier(c, e, i, j) ==> !Earlier(a, b, c, e)
  }

  lemma {:induction false} IndexTrackSound(tracks: seq<Track>, i: nat, j: nat, id: Id)
    requires i < |tracks| && j <= |tracks[i].clips|
    requires id in IndexTrack(IndexTracks(tracks, i), tracks[i], j)
    ensures IsIndexed(tracks, i, j, id, IndexTrack(IndexTracks(tracks, i), tracks[i], j)[id])
    decreases i, j
  {
    if j > 0 {
      if id == tracks[i].clips[j - 1].id {
        assert IsPlaced(tracks, i, j - 1, id, Placed(tracks[i].clips[j - 1], tracks[i]));
      } else {
        IndexTrackSound(tracks, i, j - 1, id);
      }
    } else if i > 0 {
      IndexTrackSound(tracks, i - 1, |tracks[i - 1].clips|, id);
    }
  }

  /** Every entry of the index is a clip of the timeline with the track it is on, the last with its identity. */
  lemma IndexSound(s: Sequence, id: Id)
    requires id in Index(s)
    ensures IsIndexed(s.tracks, |s.tracks|, 0, id, Index(s)[id])
  {
    if s.tracks != [] {
      var i := |s.tracks| - 1;
      IndexTrackSound(s.tracks, i, |s.tracks[i].clips|, id);
    }
  }

  /** No two clips of the timeline share an identity. */
  ghost predicate UniqueClips(s: Sequence) {
    forall i, j, a, b :: 0 <= i < |s.tracks| && 0 <= j < |s.tracks[i].clips| && 0 <= a < |s.tracks| &&
                         0 <= b < |s.tracks[a].clips| && s.tracks[i].clips[j].id == s.tracks[a].clips[b].id
                         ==> i == a && j == b
  }

  ghost predicate UniqueTracks(s: Sequence) {
    forall i, j :: 0 <= i < |s.tracks| && 0 <= j < |s.tracks| && s.tracks[i].id == s.tracks[j].id ==> i == j
  }

  lemma {:induction false} IndexTrackKeeps(index: map<Id, Placed>, track: Track, j: nat)
    requires j <= |track.clips|
    ensures index.Keys <= IndexTrack(index, track, j).Keys
    ensures forall b :: 0 <= b < j ==> track.clips[b].id in IndexTrack(index, track, j)
  {
    if j > 0 {
      IndexTrackKeeps(index, track, j - 1);
    }
  }

  lemma {:induction false} IndexTracksKeeps(tracks: seq<Track>, i: nat)
    requires i <= |tracks|
    ensures forall a, b :: 0 <= a < i && 0 <= b < |tracks[a].clips| ==> tracks[a].clips[b].id in IndexTracks(tracks, i)
  {
    if i > 0 {
      IndexTracksKeeps(tracks, i - 1);
      IndexTrackKeeps(IndexTracks(tracks, i - 1), tracks[i - 1], |tracks[i - 1].clips|);
    }
  }

  /** When identities are unique the index holds every clip, each as itself. */
  lemma IndexComplete(s: Sequence, i: nat, j: nat)
    requires UniqueClips(s) && i < |s.tracks| && j < |s.tracks[i].clips|
    ensures var clip := s.tracks[i].clips[j]; clip.id in Index(s) && Index(s)[clip.id] == Placed(clip, s.tracks[i])
  {
    IndexTracksKeeps(s.tracks, |s.tracks|);
    var id := s.tracks[i].clips[j].id;
    IndexSound(s, id);
    var a, b :| IsPlaced(s.tracks, a, b, id, Index(s)[id]);
    assert s.tracks[a].clips[b].id == s.tracks[i].clips[j].id;
  }
}
