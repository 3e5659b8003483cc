/** The value of a track at any time, as a piecewise curve over instants, and the exact fraction it rests on. */
module KeyframeCurve {
  import opened Keyframes

  // ---- The fraction ---------------------------------------------------------------------

  function FromLeft(position: Time, left: Time): int {
    position.value * left.rate - left.value * position.rate
  }

  function Numerator(position: Time, left: Time, right: Time): int {
    FromLeft(position, left) * right.rate
  }

  function Denominator(position: Time, left: Time, right: Time): int {
    FromLeft(right, left) * position.rate
  }

  const INT64: int := 0x8000_0000_0000_0000
  const INT32: int := 0x8000_0000

  predicate FitsTime(t: Time) {
    -INT64 <= t.value < INT64 && 0 < t.rate < INT32
  }

  /** A product of a bounded value and a bounded rate. */
  lemma ProductBound(v: int, r: int, m: int, n: int)
    requires -m <= v <= m && 0 < r < n
    ensures -m * n <= v * r <= m * n
  {
  }

  /** For 64-bit values and positive 32-bit rates no intermediate leaves a signed 128-bit integer. */
  lemma FractionFits(position: Time, left: Time, right: Time)
    requires FitsTime(position) && FitsTime(left) && FitsTime(right)
    ensures var limit := INT64 * INT64 * 2;
            && -limit <= FromLeft(position, left) < limit && -limit <= FromLeft(right, left) < limit
            && -limit <= Numerator(position, left, right) < limit
            && -limit <= Denominator(position, left, right) < limit
  {
    ProductBound(position.value, left.rate, INT64, INT32);
    ProductBound(left.value, position.rate, INT64, INT32);
    ProductBound(right.value, left.rate, INT64, INT32);
    ProductBound(left.value, right.rate, INT64, INT32);
    ProductBound(FromLeft(position, left), right.rate, 2 * INT64 * INT32, INT32);
    ProductBound(FromLeft(right, left), position.rate, 2 * INT64 * INT32, INT32);
  }

  /** The cross difference is the distance between the instants, scaled by both rates. */
  lemma FromLeftIs(position: Time, left: Time)
    requires position.rate > 0 && left.rate > 0
    ensures FromLeft(position, left) as real ==
            (Instant(position) - Instant(left)) * (position.rate as real * left.rate as real)
  {
  }

  lemma Cancel(x: real, y: real, c: real)
    requires c > 0.0 && y > 0.0
    ensures y * c > 0.0 && (x * c) / (y * c) == x / y
  {
  }

  lemma Reorder(x: real, a: real, b: real, c: real)
    ensures (x * (a * b)) * c == x * ((a * b) * c) && (x * (c * b)) * a == x * ((a * b) * c)
  {
  }

  /** The fraction of integers is the fraction of the way between the two instants. */
  lemma FractionIsExact(position: Time, left: Time, right: Time)
    requires position.rate > 0 && left.rate > 0 && right.rate > 0 && Instant(left) < Instant(right)
    ensures Denominator(position, left, right) > 0
    ensures Numerator(position, left, right) as real / Denominator(position, left, right) as real ==
            (Instant(position) - Instant(left)) / (Instant(right) - Instant(left))
  {
    var p, l, r := position.rate as real, left.rate as real, right.rate as real;
    var x, y := Instant(position) - Instant(left), Instant(right) - Instant(left);
    var c := (p * l) * r;
    FromLeftIs(position, left);
    FromLeftIs(right, left);
    Product(FromLeft(position, left), right.rate);
    Product(FromLeft(right, left), position.rate);
    Reorder(x, p, l, r);
    Reorder(y, p, l, r);
    assert c > 0.0;
    Cancel(x, y, c);
    assert Numerator(position, left, right) as real == x * c;
    assert Denominator(position, left, right) as real == y * c;
  }

  // ---- The curve -------------------------------------------------------------------------

  /** How many keyframes come before the time. */
  function CountBefore(ks: seq<Keyframe>, time: Time): (p: nat)
    ensures p <= |ks|
  {
    if ks == [] || !Less(ks[0].time, time) then 0 else 1 + CountBefore(ks[1..], time)
  }

  lemma {:induction false} CountIsLower(ks: seq<Keyframe>, time: Time)
    requires IsTrack(ks) && time.rate > 0
    ensures IsLower(ks, time, CountBefore(ks, time))
  {
    if ks != [] {
      LessIsEarlier(ks[0].time, time);
      if Less(ks[0].time, time) {
        CountIsLower(ks[1..], time);
        var p := CountBefore(ks[1..], time);
        forall i | 0 < i < |ks|
          ensures Instant(ks[i].time) < Instant(time) <==> i < 1 + p
        {
          assert ks[i] == ks[1..][i - 1];
        }
      }
    }
  }

  /** What is in force from one keyframe up to the next. */
  function Between(left: Keyframe, right: Keyframe, time: Time): real
    requires Valid(left) && Valid(right) && time.rate > 0 && Denominator(time, left.time, right.time) > 0
  {
    if left.interpolation.Hold? then left.value.value
    else
      left.value.value + (right.value.value - left.value.value) *
        (Numerator(time, left.time, right.time) as real / Denominator(time, left.time, right.time) as real)
  }

  function Evaluate(ks: seq<Keyframe>, time: Time): Evaluation
    requires IsTrack(ks)
  {
    if time.rate <= 0 then Failed(InvalidTime)
    else if ks == [] then Failed(EmptyTrack)
    else
      var right := CountBefore(ks, time);
      if right == 0 then Value(ks[0].value.value)
      else if right == |ks| then Value(ks[|ks| - 1].value.value)
      else if !Less(time, ks[right].time) then Value(ks[right].value.value)
      else
        FractionIsExact(time, ks[right - 1].time, ks[right].time);
        Value(Between(ks[right - 1], ks[right], time))
  }

  /** The same curve, over instants: clamped outside, keyed values at the keys, held or straight between. */
  ghost function CurveAt(ks: seq<Keyframe>, x: real): real
    requires IsTrack(ks) && ks != []
  {
    if x <= Instant(ks[0].time) then ks[0].value.value
    else if |ks| == 1 || x >= Instant(ks[|ks| - 1].time) then ks[|ks| - 1].value.value
    else if x >= Instant(ks[1].time) then CurveAt(ks[1..], x)
    else if ks[0].interpolation.Hold? then ks[0].value.value
    else Straight(Instant(ks[0].time), ks[0].value.value, Instant(ks[1].time), ks[1].value.value, x)
  }

  /** The straight line through two points. */
  ghost function Straight(x0: real, y0: real, x1: real, y1: real, x: real): real
    requires x0 < x1
  {
    y0 + (y1 - y0) * ((x - x0) / (x1 - x0))
  }

  lemma {:induction false} CurveOnSegment(ks: seq<Keyframe>, i: nat, x: real)
    requires IsTrack(ks) && i + 1 < |ks| && Instant(ks[i].time) < x < Instant(ks[i + 1].time)
    ensures CurveAt(ks, x) == if ks[i].interpolation.Hold? then ks[i].value.value
                              else Straight(Instant(ks[i].time), ks[i].value.value, Instant(ks[i + 1].time),
                                            ks[i + 1].value.value, x)
  {
    if i > 0 {
      assert IsTrack(ks[1..]);
      CurveOnSegment(ks[1..], i - 1, x);
    }
  }

  /** The curve has every keyed value. */
  lemma {:induction false} CurveAtKey(ks: seq<Keyframe>, i: nat)
    requires IsTrack(ks) && i < |ks|
    ensures CurveAt(ks, Instant(ks[i].time)) == ks[i].value.value
  {
    if 0 < i < |ks| - 1 {
      assert IsTrack(ks[1..]);
      CurveAtKey(ks[1..], i - 1);
    }
  }

  lemma BetweenIs(left: Keyframe, right: Keyframe, time: Time)
    requires Valid(left) && Valid(right) && time.rate > 0 && Instant(left.time) < Instant(right.time)
    ensures Denominator(time, left.time, right.time) > 0
    ensures Between(left, right, time) ==
            if left.interpolation.Hold? then left.value.value
            else Straight(Instant(left.time), left.value.value, Instant(right.time), right.value.value, Instant(time))
  {
    FractionIsExact(time, left.time, right.time);
  }

  /**
   Evaluation is that curve at the time's instant, so it depends on nothing
   else about the time.
   */
  lemma EvaluationIsCurve(ks: seq<Keyframe>, time: Time)
    requires IsTrack(ks) && ks != [] && time.rate > 0
    ensures Evaluate(ks, time) == Value(CurveAt(ks, Instant(time)))
  {
    var x, right := Instant(time), CountBefore(ks, time);
    CountIsLower(ks, time);
    if right == 0 {
      assert x <= Instant(ks[0].time);
    } else if right == |ks| {
      assert Instant(ks[|ks| - 1].time) < x;
      assert Instant(ks[0].time) <= Instant(ks[|ks| - 1].time);
    } else {
      LessIsEarlier(time, ks[right].time);
      if Less(time, ks[right].time) {
        BetweenIs(ks[right - 1], ks[right], time);
        CurveOnSegment(ks, right - 1, x);
      } else {
        CurveAtKey(ks, right);
      }
    }
  }

  /** Two times at one instant evaluate alike, whatever their timebases. */
  lemma TimebaseIrrelevant(ks: seq<Keyframe>, a: Time, b: Time)
    requires IsTrack(ks) && a.rate > 0 && b.rate > 0 && Instant(a) == Instant(b)
    ensures Evaluate(ks, a) == Evaluate(ks, b)
  {
    if ks != [] {
      EvaluationIsCurve(ks, a);
      EvaluationIsCurve(ks, b);
    }
  }

  /** Every key is hit, at its time in any timebase. */
  lemma KeysAreHit(ks: seq<Keyframe>, i: nat, time: Time)
    requires IsTrack(ks) && i < |ks| && time.rate > 0 && Instant(time) == Instant(ks[i].time)
    ensures Evaluate(ks, time) == Value(ks[i].value.value)
  {
    EvaluationIsCurve(ks, time);
    CurveAtKey(ks, i);
  }

  /** Outside the keyed range the nearest end's value holds. */
  lemma OutsideClamps(ks: seq<Keyframe>, time: Time)
    requires IsTrack(ks) && ks != [] && time.rate > 0
    ensures Instant(time) <= Instant(ks[0].time) ==> Evaluate(ks, time) == Value(ks[0].value.value)
    ensures Instant(time) >= Instant(ks[|ks| - 1].time) ==> Evaluate(ks, time) == Value(ks[|ks| - 1].value.value)
  {
    EvaluationIsCurve(ks, time);
    CurveAtKey(ks, |ks| - 1);
    assert |ks| > 1 ==> Instant(ks[0].time) < Instant(ks[|ks| - 1].time);
  }

  // ---- Straight lines --------------------------------------------------------------------------

  lemma Grows(a: real, b: real, c: real)
    requires c >= 0.0 && a <= b
    ensures a * c <= b * c
  {
  }

  lemma Divides(a: real, b: real, c: real)
    requires c > 0.0 && a <= b
    ensures a / c <= b / c
  {
  }

  /** A straight line never turns back. */
  lemma StraightIsMonotone(x0: real, y0: real, x1: real, y1: real, a: real, b: real)
    requires x0 < x1 && a <= b
    ensures y0 <= y1 ==> Straight(x0, y0, x1, y1, a) <= Straight(x0, y0, x1, y1, b)
    ensures y0 >= y1 ==> Straight(x0, y0, x1, y1, a) >= Straight(x0, y0, x1, y1, b)
  {
    var f, g := (a - x0) / (x1 - x0), (b - x0) / (x1 - x0);
    Divides(a - x0, b - x0, x1 - x0);
    if y0 <= y1 {
      Grows(f, g, y1 - y0);
    }
    if y0 >= y1 {
      Grows(f, g, y0 - y1);
      assert (y1 - y0) * f == -((y0 - y1) * f) && (y1 - y0) * g == -((y0 - y1) * g);
    }
  }

  lemma StraightEnds(x0: real, y0: real, x1: real, y1: real)
    requires x0 < x1
    ensures Straight(x0, y0, x1, y1, x0) == y0 && Straight(x0, y0, x1, y1, x1) == y1
  {
  }

  /** A rise over a run is in proportion to a whole rise over a whole run. */
  ghost predicate InProportion(rise: real, run: real, wholeRise: real, wholeRun: real) {
    rise * wholeRun == wholeRise * run
  }

  lemma NoRise(run: real, wholeRun: real)
    ensures InProportion(0.0, run, 0.0, wholeRun)
  {
  }

  /** Its rise from the left end is to the whole rise as its distance from there is to the whole distance. */
  lemma StraightIsProportional(x0: real, y0: real, x1: real, y1: real, x: real)
    requires x0 < x1
    ensures InProportion(Straight(x0, y0, x1, y1, x) - y0, x - x0, y1 - y0, x1 - x0)
  {
    var f := (x - x0) / (x1 - x0);
    assert f * (x1 - x0) == x - x0;
    Regroup(y1 - y0, f, x1 - x0);
  }

  lemma CurveIsStraight(ks: seq<Keyframe>, i: nat, x: real)
    requires IsTrack(ks) && i + 1 < |ks| && Instant(ks[i].time) < x < Instant(ks[i + 1].time)
    ensures var a, b := ks[i], ks[i + 1];
            InProportion(CurveAt(ks, x) - a.value.value, x - Instant(a.time),
                         if a.interpolation.Hold? then 0.0 else b.value.value - a.value.value,
                         Instant(b.time) - Instant(a.time))
  {
    CurveOnSegment(ks, i, x);
    if ks[i].interpolation.Hold? {
      NoRise(x - Instant(ks[i].time), Instant(ks[i + 1].time) - Instant(ks[i].time));
    } else {
      StraightIsProportional(Instant(ks[i].time), ks[i].value.value, Instant(ks[i + 1].time), ks[i + 1].value.value, x);
    }
  }

  /** Between two neighbouring keys a linear segment gains value in proportion to time, and a held one gains none. */
  lemma SegmentIsStraight(ks: seq<Keyframe>, i: nat, time: Time)
    requires IsTrack(ks) && i + 1 < |ks| && time.rate > 0
    requires Instant(ks[i].time) < Instant(time) < Instant(ks[i + 1].time)
    ensures Evaluate(ks, time).Value?
    ensures var a, b, v := ks[i], ks[i + 1], Evaluate(ks, time).value;
            InProportion(v - a.value.value, Instant(time) - Instant(a.time),
                         if a.interpolation.Hold? then 0.0 else b.value.value - a.value.value,
                         Instant(b.time) - Instant(a.time))
  {
    EvaluationIsCurve(ks, time);
    CurveIsStraight(ks, i, Instant(time));
  }

  ghost predicate Ordered(a: real, b: real, c: real) {
    a <= b <= c || a >= b >= c
  }

  /** Between two neighbouring keys the value stays between theirs, and never turns back. */
  lemma SegmentIsMonotone(ks: seq<Keyframe>, i: nat, s: Time, t: Time)
    requires IsTrack(ks) && i + 1 < |ks| && s.rate > 0 && t.rate > 0
    requires Instant(ks[i].time) < Instant(s) <= Instant(t) < Instant(ks[i + 1].time)
    ensures Evaluate(ks, s).Value? && Evaluate(ks, t).Value?
    ensures ks[i].interpolation.Linear? ==>
              var u, v := Evaluate(ks, s).value, Evaluate(ks, t).value;
              Ordered(ks[i].value.value, u, v) && Ordered(u, v, ks[i + 1].value.value)
    ensures ks[i].interpolation.Hold? ==> Evaluate(ks, s) == Evaluate(ks, t) == Value(ks[i].value.value)
  {
    var a, b := ks[i], ks[i + 1];
    var x0, x1, y0, y1 := Instant(a.time), Instant(b.time), a.value.value, b.value.value;
    EvaluationIsCurve(ks, s);
    EvaluationIsCurve(ks, t);
    CurveOnSegment(ks, i, Instant(s));
    CurveOnSegment(ks, i, Instant(t));
    StraightEnds(x0, y0, x1, y1);
    StraightIsMonotone(x0, y0, x1, y1, x0, Instant(s));
    StraightIsMonotone(x0, y0, x1, y1, Instant(s), Instant(t));
    StraightIsMonotone(x0, y0, x1, y1, Instant(t), x1);
  }
}
