/** Turning a run of transcript spans into the one source range it covers. */
module SpanRanges {
  import opened Options

  type Id = nat

  datatype Span = Span(id: string, source: Id, sourceIn: real, duration: real)
  {
    function End(): real {
      sourceIn + duration
    }
  }

  datatype Range = Range(source: Id, sourceIn: real, duration: real)

  /** The longest pause that does not break a subtitle cue. */
  const MAXIMUM_GAP := 7.0 / 10.0

  /** The first span with that handle, or the number of spans. */
  function FirstIndex(spans: seq<Span>, id: string): (i: nat)
    ensures i <= |spans|
    ensures i < |spans| ==> spans[i].id == id
    ensures forall k :: 0 <= k < i ==> spans[k].id != id
  {
    if spans == [] || spans[0].id == id then 0
    else
      var i := 1 + FirstIndex(spans[1..], id);
      assert forall k :: 0 < k < i ==> spans[k] == spans[1..][k - 1];
      i
  }

  method Find(spans: seq<Span>, id: string) returns (i: nat)
    ensures i == FirstIndex(spans, id)
  {
    i := 0;
    while i < |spans|
      invariant 0 <= i <= |spans|
      invariant forall k :: 0 <= k < i ==> spans[k].id != id
    {
      if spans[i].id == id {
        break;
      }
      i := i + 1;
    }
  }

  /** One source, and no more than a breath between them. */
  predicate Follows(span: Span, next: Span) {
    next.source == span.source && 0.0 <= next.sourceIn - span.End() < MAXIMUM_GAP
  }

  ghost predicate IsRun(spans: seq<Span>, first: nat, last: nat) {
    first <= last < |spans| && forall k :: first <= k < last ==> Follows(spans[k], spans[k + 1])
  }

  /** Where a run ends; an empty handle means a run of one. */
  function LastIndex(spans: seq<Span>, startId: string, endId: string): nat {
    if endId == "" then FirstIndex(spans, startId) else FirstIndex(spans, endId)
  }

  method ResolveRange(spans: seq<Span>, startId: string, endId: string) returns (r: Option<Range>)
    ensures var first, last := FirstIndex(spans, startId), LastIndex(spans, startId, endId);
            if IsRun(spans, first, last)
            then r == Some(Range(spans[first].source, spans[first].sourceIn, spans[last].End() - spans[first].sourceIn))
            else r == None
  {
    var first := Find(spans, startId);
    if first == |spans| {
      return None;
    }
    var last := first;
    if endId != "" {
      last := Find(spans, endId);
      if last == |spans| || last < first {
        return None;
      }
    }
    var span := first;
    while span != last
      invariant first <= span <= last
      invariant forall k :: first <= k < span ==> Follows(spans[k], spans[k + 1])
      decreases last - span
    {
      var next := span + 1;
      if spans[next].source != spans[span].source {
        return None;
      }
      var gap := spans[next].sourceIn - (spans[span].sourceIn + spans[span].duration);
      if gap < 0.0 || gap >= MAXIMUM_GAP {
        return None;
      }
      span := next;
    }
    return Some(Range(spans[first].source, spans[first].sourceIn,
                      spans[last].sourceIn + spans[last].duration - spans[first].sourceIn));
  }

  /** The instant is in one of the run's spans, or in a breath between two of them. */
  ghost predicate Accounted(spans: seq<Span>, first: nat, last: nat, t: real)
    requires first <= last < |spans|
  {
    || (exists k :: first <= k <= last && spans[k].sourceIn <= t < spans[k].End())
    || (exists k :: first <= k < last && InGap(spans, k, t))
  }

  ghost predicate InGap(spans: seq<Span>, k: nat, t: real)
    requires k + 1 < |spans|
  {
    spans[k].End() <= t < spans[k + 1].sourceIn && spans[k + 1].sourceIn - spans[k].End() < MAXIMUM_GAP
  }

  /** A run's range has all its spans, one source, and nothing but them and the breaths between them. */
  lemma {:induction false} RangeIsRun(spans: seq<Span>, first: nat, last: nat, t: real)
    requires IsRun(spans, first, last) && forall k :: 0 <= k < |spans| ==> spans[k].duration >= 0.0
    ensures forall k :: first <= k <= last ==>
              spans[k].source == spans[first].source &&
              spans[first].sourceIn <= spans[k].sourceIn && spans[k].End() <= spans[last].End()
    ensures spans[first].sourceIn <= t < spans[last].End() ==> Accounted(spans, first, last, t)
    decreases last - first
  {
    if first < last {
      var mid := last - 1;
      RangeIsRun(spans, first, mid, t);
      assert Follows(spans[mid], spans[last]);
      if spans[first].sourceIn <= t < spans[last].End() {
        if t < spans[mid].End() {
          if k :| first <= k <= mid && spans[k].sourceIn <= t < spans[k].End() {
            assert first <= k <= last;
          } else {
            var k :| first <= k < mid && InGap(spans, k, t);
            assert first <= k < last;
          }
        } else if t < spans[last].sourceIn {
          assert InGap(spans, mid, t);
        } else {
          assert spans[last].sourceIn <= t < spans[last].End();
        }
      }
    }
  }

  /** What a run asks of each span and the next: one source, in order, and less than seven tenths of a second between them. */
  lemma RunMeans(spans: seq<Span>, first: nat, last: nat)
    requires first <= last < |spans|
    ensures IsRun(spans, first, last) <==>
            forall k {:trigger spans[k]} :: first <= k < last ==>
              && spans[k + 1].source == spans[k].source
              && spans[k].sourceIn + spans[k].duration <= spans[k + 1].sourceIn
              && 10.0 * (spans[k + 1].sourceIn - (spans[k].sourceIn + spans[k].duration)) < 7.0
  {
    forall k | first <= k < last
      ensures Follows(spans[k], spans[k + 1]) <==>
              && spans[k + 1].source == spans[k].source
              && spans[k].sourceIn + spans[k].duration <= spans[k + 1].sourceIn
              && 10.0 * (spans[k + 1].sourceIn - (spans[k].sourceIn + spans[k].duration)) < 7.0
    {
    }
  }

  /** Without an end handle the range is that of the first span with the start handle, and of no other. */
  lemma OneSpan(spans: seq<Span>, startId: string, i: nat)
    requires i < |spans| && spans[i].id == startId && forall k :: 0 <= k < i ==> spans[k].id != startId
    ensures FirstIndex(spans, startId) == LastIndex(spans, startId, "") == i && IsRun(spans, i, i)
    ensures spans[i].End() - spans[i].sourceIn == spans[i].duration
  {
  }

  /** With one, the run ends at the first span that has it. */
  lemma EndsAt(spans: seq<Span>, startId: string, endId: string, i: nat)
    requires endId != "" && i < |spans| && spans[i].id == endId && forall k :: 0 <= k < i ==> spans[k].id != endId
    ensures LastIndex(spans, startId, endId) == i
  {
  }
}
