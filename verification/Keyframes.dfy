/**
 A track of keyframes at exact rational times, one parameter each, and its
 evaluation. Values are exact reals here; a time is a value over a positive
 rate, and two times are the same when their instants are.
 */
module Keyframes {
  type Id = nat

  const NO_ID: Id := 0

  datatype Time = Time(value: int, rate: int)

  datatype Interpolation = Hold | Linear | Unknown

  datatype Number = Finite(value: real) | NotFinite

  datatype Keyframe = Keyframe(id: Id, time: Time, value: Number, interpolation: Interpolation)

  datatype Error =
    | Accepted | InvalidId | InvalidTime | InvalidInterpolation | NonFiniteValue | DuplicateId | DuplicateTime
    | NotFound | EmptyTrack

  datatype Evaluation = Value(value: real) | Failed(error: Error)

  // ---- Instants ----------------------------------------------------------------------

  function Instant(t: Time): real
    requires t.rate > 0
  {
    t.value as real / t.rate as real
  }

  /** The comparison by cross products, without division. */
  predicate Less(a: Time, b: Time) {
    a.value * b.rate < b.value * a.rate
  }

  lemma Product(a: int, b: int)
    ensures (a * b) as real == a as real * b as real
  {
  }

  lemma InstantTimesRate(t: Time)
    requires t.rate > 0
    ensures Instant(t) * (t.rate as real) == t.value as real
  {
  }

  lemma Scaled(x: real, y: real, c: real)
    requires c > 0.0
    ensures x < y <==> x * c < y * c
  {
  }

  lemma Regroup(x: real, a: real, b: real)
    ensures (x * a) * b == x * (a * b) && (x * b) * a == x * (a * b)
  {
  }

  /** Comparing cross products compares the instants. */
  lemma LessIsEarlier(a: Time, b: Time)
    requires a.rate > 0 && b.rate > 0
    ensures Less(a, b) <==> Instant(a) < Instant(b)
  {
    var x, y, p, q := Instant(a), Instant(b), a.rate as real, b.rate as real;
    InstantTimesRate(a);
    InstantTimesRate(b);
    Product(a.value, b.rate);
    Product(b.value, a.rate);
    Regroup(x, p, q);
    Regroup(y, p, q);
    Scaled(x, y, p * q);
  }

  // ---- The track ------------------------------------------------------------------------

  predicate Valid(k: Keyframe) {
    k.id != NO_ID && k.time.rate > 0 && !k.interpolation.Unknown? && k.value.Finite?
  }

  function Validate(k: Keyframe): Error {
    if k.id == NO_ID then InvalidId
    else if k.time.rate <= 0 then InvalidTime
    else if k.interpolation.Unknown? then InvalidInterpolation
    else if k.value.NotFinite? then NonFiniteValue
    else Accepted
  }

  /** What is looked at first, and what a refusal says. */
  lemma ValidateIs(k: Keyframe)
    ensures var e := Validate(k);
            && (e == InvalidId <==> k.id == NO_ID)
            && (e == InvalidTime <==> k.id != NO_ID && k.time.rate <= 0)
            && (e == InvalidInterpolation <==> k.id != NO_ID && k.time.rate > 0 && k.interpolation == Unknown)
            && (e == NonFiniteValue <==>
                  k.id != NO_ID && k.time.rate > 0 && k.interpolation != Unknown && k.value == NotFinite)
            && (e == Accepted <==>
                  k.id != NO_ID && k.time.rate > 0 && (k.interpolation == Hold || k.interpolation == Linear) &&
                  exists x :: k.value == Finite(x))
            && (Valid(k) <==> e == Accepted)
  {
    if k.value.Finite? {
      assert k.value == Finite(k.value.value);
    }
  }

  ghost predicate AllValid(ks: seq<Keyframe>) {
    forall i :: 0 <= i < |ks| ==> Valid(ks[i])
  }

  /** Strictly increasing in exact time. */
  ghost predicate Increasing(ks: seq<Keyframe>)
    requires AllValid(ks)
  {
    forall i, j :: 0 <= i < j < |ks| ==> Instant(ks[i].time) < Instant(ks[j].time)
  }

  ghost predicate UniqueIds(ks: seq<Keyframe>) {
    forall i, j :: 0 <= i < j < |ks| ==> ks[i].id != ks[j].id
  }

  ghost predicate IsTrack(ks: seq<Keyframe>) {
    AllValid(ks) && Increasing(ks) && UniqueIds(ks)
  }

  predicate HasId(ks: seq<Keyframe>, id: Id) {
    exists i :: 0 <= i < |ks| && ks[i].id == id
  }

  /** Some keyframe, other than the one with that identity, is at that instant. */
  ghost predicate Occupied(ks: seq<Keyframe>, id: Id, time: Time)
    requires AllValid(ks) && time.rate > 0
  {
    exists i :: 0 <= i < |ks| && ks[i].id != id && Instant(ks[i].time) == Instant(time)
  }

  /** How many keyframes come before a time. */
  ghost predicate IsLower(ks: seq<Keyframe>, time: Time, p: nat)
    requires AllValid(ks) && time.rate > 0
  {
    && p <= |ks|
    && (forall i :: 0 <= i < p ==> Instant(ks[i].time) < Instant(time))
    && (forall i :: p <= i < |ks| ==> Instant(ks[i].time) >= Instant(time))
  }

  method LowerBound(ks: seq<Keyframe>, time: Time) returns (p: nat)
    requires IsTrack(ks) && time.rate > 0
    ensures IsLower(ks, time, p)
  {
    var low, high := 0, |ks|;
    while low < high
      invariant 0 <= low <= high <= |ks|
      invariant forall i :: 0 <= i < low ==> Instant(ks[i].time) < Instant(time)
      invariant forall i :: high <= i < |ks| ==> Instant(ks[i].time) >= Instant(time)
    {
      var mid := (low + high) / 2;
      LessIsEarlier(ks[mid].time, time);
      if Less(ks[mid].time, time) {
        low := mid + 1;
      } else {
        high := mid;
      }
    }
    return low;
  }

  /** The keyframe put in its place. */
  function Placed(ks: seq<Keyframe>, k: Keyframe, p: nat): seq<Keyframe>
    requires p <= |ks|
  {
    ks[..p] + [k] + ks[p..]
  }

  lemma PlacedIsTrack(ks: seq<Keyframe>, k: Keyframe, p: nat)
    requires IsTrack(ks) && Valid(k) && IsLower(ks, k.time, p)
    requires !HasId(ks, k.id) && !Occupied(ks, k.id, k.time)
    ensures IsTrack(Placed(ks, k, p))
  {
    var r := Placed(ks, k, p);
    assert r[p] == k;
    assert forall i :: 0 <= i < p ==> r[i] == ks[i];
    assert forall i :: p < i < |r| ==> r[i] == ks[i - 1];
    forall i, j | 0 <= i < j < |r|
      ensures Instant(r[i].time) < Instant(r[j].time) && r[i].id != r[j].id
    {
      if i == p {
        assert ks[j - 1].id != k.id;
        assert Instant(ks[j - 1].time) != Instant(k.time);
      }
    }
  }

  function Removed(ks: seq<Keyframe>, i: nat): seq<Keyframe>
    requires i < |ks|
  {
    ks[..i] + ks[i + 1..]
  }

  lemma RemovedIsTrack(ks: seq<Keyframe>, i: nat)
    requires IsTrack(ks) && i < |ks|
    ensures IsTrack(Removed(ks, i)) && !HasId(Removed(ks, i), ks[i].id)
    ensures forall k :: k in Removed(ks, i) <==> k in ks && k.id != ks[i].id
  {
  }

  class KeyframeTrack {
    var keyframes: seq<Keyframe>

    constructor ()
      ensures keyframes == [] && IsTrack(keyframes)
    {
      keyframes := [];
    }

    method Find(id: Id) returns (i: nat)
      ensures i <= |keyframes|
      ensures i < |keyframes| ==> keyframes[i].id == id
      ensures i == |keyframes| ==> !HasId(keyframes, id)
    {
      i := 0;
      while i < |keyframes|
        invariant 0 <= i <= |keyframes|
        invariant forall k :: 0 <= k < i ==> keyframes[k].id != id
      {
        if keyframes[i].id == id {
          return;
        }
        i := i + 1;
      }
    }

    method Add(keyframe: Keyframe) returns (r: Error)
      requires IsTrack(keyframes)
      modifies this
      ensures IsTrack(keyframes)
      ensures r == if !Valid(keyframe) then Validate(keyframe)
                   else if HasId(old(keyframes), keyframe.id) then DuplicateId
                   else if Occupied(old(keyframes), keyframe.id, keyframe.time) then DuplicateTime
                   else Accepted
      ensures r != Accepted ==> keyframes == old(keyframes)
      ensures r == Accepted ==>
                exists p :: IsLower(old(keyframes), keyframe.time, p) && keyframes == Placed(old(keyframes), keyframe, p)
      ensures r == Accepted ==> forall k :: k in keyframes <==> k == keyframe || k in old(keyframes)
    {
      r := Validate(keyframe);
      if r != Accepted {
        return;
      }
      var existing := Find(keyframe.id);
      if existing < |keyframes| {
        return DuplicateId;
      }
      var p := LowerBound(keyframes, keyframe.time);
      if p < |keyframes| {
        LessIsEarlier(keyframe.time, keyframes[p].time);
        if !Less(keyframe.time, keyframes[p].time) {
          assert Occupied(keyframes, keyframe.id, keyframe.time);
          return DuplicateTime;
        }
      }
      PlacedIsTrack(keyframes, keyframe, p);
      PlacedHas(keyframes, keyframe, p);
      keyframes := Placed(keyframes, keyframe, p);
      return Accepted;
    }

    method Remove(id: Id) returns (r: Error)
      requires IsTrack(keyframes)
      modifies this
      ensures IsTrack(keyframes)
      ensures r == if HasId(old(keyframes), id) then Accepted else NotFound
      ensures r != Accepted ==> keyframes == old(keyframes)
      ensures r == Accepted ==> exists i :: 0 <= i < |old(keyframes)| && old(keyframes)[i].id == id &&
                                            keyframes == Removed(old(keyframes), i)
      ensures r == Accepted ==> forall k :: k in keyframes <==> k in old(keyframes) && k.id != id
    {
      var found := Find(id);
      if found == |keyframes| {
        return NotFound;
      }
      RemovedIsTrack(keyframes, found);
      keyframes := Removed(keyframes, found);
      return Accepted;
    }

    method TimeTaken(id: Id, time: Time) returns (taken: bool)
      requires IsTrack(keyframes) && time.rate > 0
      ensures taken <==> Occupied(keyframes, id, time)
    {
      var i := 0;
      while i < |keyframes|
        invariant 0 <= i <= |keyframes|
        invariant forall k :: 0 <= k < i ==> keyframes[k].id == id || Instant(keyframes[k].time) != Instant(time)
      {
        LessIsEarlier(keyframes[i].time, time);
        LessIsEarlier(time, keyframes[i].time);
        if keyframes[i].id != id && !Less(keyframes[i].time, time) && !Less(time, keyframes[i].time) {
          return true;
        }
        i := i + 1;
      }
      return false;
    }

    /** Everything but the identity is replaced, or nothing is. */
    method Update(id: Id, time: Time, value: Number, interpolation: Interpolation) returns (r: Error)
      requires IsTrack(keyframes)
      modifies this
      ensures IsTrack(keyframes)
      ensures r == if !HasId(old(keyframes), id) then NotFound
                   else if !Valid(Keyframe(id, time, value, interpolation)) then Validate(Keyframe(id, time, value, interpolation))
                   else if Occupied(old(keyframes), id, time) then DuplicateTime
                   else Accepted
      ensures r != Accepted ==> keyframes == old(keyframes)
      ensures r == Accepted ==>
                forall k :: k in keyframes <==>
                  k == Keyframe(id, time, value, interpolation) || (k in old(keyframes) && k.id != id)
    {
      var found := Find(id);
      if found == |keyframes| {
        return NotFound;
      }
      var replacement := Keyframe(id, time, value, interpolation);
      r := Validate(replacement);
      if r != Accepted {
        return;
      }
      var taken := TimeTaken(id, time);
      if taken {
        return DuplicateTime;
      }
      RemovedIsTrack(keyframes, found);
      ghost var rest := Removed(keyframes, found);
      StillFree(keyframes, rest, id, time);
      keyframes := Removed(keyframes, found);
      var p := LowerBound(keyframes, time);
      PlacedIsTrack(keyframes, replacement, p);
      PlacedHas(keyframes, replacement, p);
      keyframes := Placed(keyframes, replacement, p);
      return Accepted;
    }
  }

  lemma StillFree(ks: seq<Keyframe>, rest: seq<Keyframe>, id: Id, time: Time)
    requires AllValid(ks) && AllValid(rest) && time.rate > 0 && !Occupied(ks, id, time)
    requires forall k :: k in rest ==> k in ks
    ensures !Occupied(rest, id, time)
  {
    forall i | 0 <= i < |rest| && rest[i].id != id
      ensures Instant(rest[i].time) != Instant(time)
    {
      assert rest[i] in rest;
      var j :| 0 <= j < |ks| && ks[j] == rest[i];
    }
  }

  lemma PlacedHas(ks: seq<Keyframe>, k: Keyframe, p: nat)
    requires p <= |ks|
    ensures forall x :: x in Placed(ks, k, p) <==> x == k || x in ks
  {
  }
}
