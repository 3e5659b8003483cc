/** Picking onsets from the novelty: local maxima over a threshold, a minimum gap apart, the earliest first. */
module OnsetPicking {

  /** Positive, not exceeded nearby, and over its threshold. */
  ghost predicate IsPeak(novelty: seq<real>, threshold: seq<real>, radius: nat, n: nat) {
    && n < |novelty| == |threshold|
    && novelty[n] > 0.0
    && IsLocalMax(novelty, radius, n)
    && novelty[n] > threshold[n]
  }

  ghost predicate IsLocalMax(novelty: seq<real>, radius: nat, n: nat)
    requires n < |novelty|
  {
    forall k :: 0 <= k < |novelty| && n - radius <= k <= n + radius ==> novelty[k] <= novelty[n]
  }

  method LocalMax(novelty: seq<real>, radius: nat, n: nat) returns (isMax: bool)
    requires n < |novelty|
    ensures isMax <==> IsLocalMax(novelty, radius, n)
  {
    var low := if n > radius then n - radius else 0;
    var high := if n + radius < |novelty| - 1 then n + radius else |novelty| - 1;
    isMax := true;
    var k := low;
    while k <= high && isMax
      invariant low <= k <= high + 1
      invariant isMax <==> forall j :: low <= j < k ==> novelty[j] <= novelty[n]
    {
      if k != n && novelty[k] > novelty[n] {
        isMax := false;
      }
      k := k + 1;
    }
  }

  /** Far enough after every onset before it. */
  ghost predicate Clear(onsets: seq<nat>, gap: nat, n: nat) {
    forall i :: 0 <= i < |onsets| && onsets[i] < n ==> onsets[i] + gap <= n
  }

  /** Exactly the peaks that are far enough after the onsets before them, in order. */
  ghost predicate ArePicked(novelty: seq<real>, threshold: seq<real>, radius: nat, gap: nat, onsets: seq<nat>, upto: nat) {
    && (forall i, j :: 0 <= i < j < |onsets| ==> onsets[i] < onsets[j])
    && (forall i :: 0 <= i < |onsets| ==> onsets[i] < upto)
    && (forall n: nat :: n in onsets <==> n < upto && IsPeak(novelty, threshold, radius, n) && Clear(onsets, gap, n))
  }

  method PickOnsets(novelty: seq<real>, threshold: seq<real>, radius: nat, gap: nat) returns (onsets: seq<nat>)
    requires |threshold| == |novelty| && gap >= 1
    ensures ArePicked(novelty, threshold, radius, gap, onsets, |novelty|)
  {
    onsets := [];
    var lastAccepted: int := 0 - gap;
    for n := 0 to |novelty|
      invariant ArePicked(novelty, threshold, radius, gap, onsets, n)
      invariant onsets == [] ==> lastAccepted == 0 - gap
      invariant onsets != [] ==> lastAccepted == onsets[|onsets| - 1]
    {
      var here := novelty[n];
      var peak := here > 0.0;
      if peak {
        peak := LocalMax(novelty, radius, n);
      }
      if peak {
        peak := here > threshold[n];
      }
      if !peak || n - lastAccepted < gap {
        NotPicked(novelty, threshold, radius, gap, onsets, n);
        continue;
      }
      Picked(novelty, threshold, radius, gap, onsets, n);
      lastAccepted := n;
      onsets := onsets + [n];
    }
  }

  lemma Picked(novelty: seq<real>, threshold: seq<real>, radius: nat, gap: nat, onsets: seq<nat>, n: nat)
    requires ArePicked(novelty, threshold, radius, gap, onsets, n) && IsPeak(novelty, threshold, radius, n)
    requires onsets != [] ==> onsets[|onsets| - 1] + gap <= n
    ensures ArePicked(novelty, threshold, radius, gap, onsets + [n], n + 1)
  {
    var more := onsets + [n];
    forall i | 0 <= i < |onsets|
      ensures onsets[i] < n && onsets[i] <= onsets[|onsets| - 1]
    {
    }
    assert more[|onsets|] == n;
    forall k: nat
      ensures k in more <==> k < n + 1 && IsPeak(novelty, threshold, radius, k) && Clear(more, gap, k)
    {
      SameClear(onsets, n, gap, k);
    }
  }

  lemma SameClear(onsets: seq<nat>, n: nat, gap: nat, k: nat)
    requires forall i :: 0 <= i < |onsets| ==> onsets[i] < n
    ensures k <= n ==> (Clear(onsets + [n], gap, k) <==> Clear(onsets, gap, k))
  {
    var more := onsets + [n];
    assert forall i :: 0 <= i < |onsets| ==> more[i] == onsets[i];
  }

  lemma NotPicked(novelty: seq<real>, threshold: seq<real>, radius: nat, gap: nat, onsets: seq<nat>, n: nat)
    requires ArePicked(novelty, threshold, radius, gap, onsets, n)
    requires !IsPeak(novelty, threshold, radius, n) || (onsets != [] && onsets[|onsets| - 1] + gap > n)
    ensures ArePicked(novelty, threshold, radius, gap, onsets, n + 1)
  {
  }

  /** Picked onsets are at least the gap apart, and a peak left out is too close after one. */
  lemma PickedMeaning(novelty: seq<real>, threshold: seq<real>, radius: nat, gap: nat, onsets: seq<nat>)
    requires ArePicked(novelty, threshold, radius, gap, onsets, |novelty|) && gap >= 1
    ensures forall i, j :: 0 <= i < j < |onsets| ==> onsets[i] + gap <= onsets[j]
    ensures forall n: nat :: IsPeak(novelty, threshold, radius, n) && n !in onsets ==>
              exists i :: 0 <= i < |onsets| && onsets[i] < n < onsets[i] + gap
  {
    forall i, j | 0 <= i < j < |onsets|
      ensures onsets[i] + gap <= onsets[j]
    {
      assert onsets[j] in onsets;
      assert Clear(onsets, gap, onsets[j]);
    }
  }
}
