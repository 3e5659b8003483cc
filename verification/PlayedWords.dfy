/**
 One clip for each played occurrence of a word. Fragments of a word are
 clustered by a union-find that halves paths in place, and each cluster
 keeps its best fragment.
 */
module PlayedWords {

  /** A fragment of a word that a clip plays: what part of the source, and when on the timeline. */
  datatype Fragment = Fragment(clip: nat, sourceStart: real, sourceEnd: real, timelineStart: real, timelineEnd: real,
                               overlap: real)

  predicate PositiveOverlap(leftStart: real, leftEnd: real, rightStart: real, rightEnd: real) {
    leftStart < rightEnd && rightStart < leftEnd
  }

  /** Overlapping on the timeline, or meeting there with disjoint parts of the source. */
  predicate SamePlayedOccurrence(left: Fragment, right: Fragment) {
    PositiveOverlap(left.timelineStart, left.timelineEnd, right.timelineStart, right.timelineEnd) ||
    ((left.timelineEnd == right.timelineStart || right.timelineEnd == left.timelineStart) &&
     !PositiveOverlap(left.sourceStart, left.sourceEnd, right.sourceStart, right.sourceEnd))
  }

  predicate Inside(t: real, start: real, end: real) {
    start < t < end
  }

  /** Two stretches of some length overlap exactly when some instant is inside both. */
  lemma OverlapIsShared(leftStart: real, leftEnd: real, rightStart: real, rightEnd: real)
    requires leftStart < leftEnd && rightStart < rightEnd
    ensures PositiveOverlap(leftStart, leftEnd, rightStart, rightEnd) <==>
            exists t :: Inside(t, leftStart, leftEnd) && Inside(t, rightStart, rightEnd)
  {
    var low := if leftStart < rightStart then rightStart else leftStart;
    var high := if leftEnd < rightEnd then leftEnd else rightEnd;
    var middle := (low + high) / 2.0;
    if PositiveOverlap(leftStart, leftEnd, rightStart, rightEnd) {
      assert Inside(middle, leftStart, leftEnd) && Inside(middle, rightStart, rightEnd);
    }
  }

  ghost predicate ShareTimeline(left: Fragment, right: Fragment) {
    exists t :: Inside(t, left.timelineStart, left.timelineEnd) && Inside(t, right.timelineStart, right.timelineEnd)
  }

  ghost predicate ShareSource(left: Fragment, right: Fragment) {
    exists t :: Inside(t, left.sourceStart, left.sourceEnd) && Inside(t, right.sourceStart, right.sourceEnd)
  }

  /** The same occurrence: some instant of the timeline in both, or side by side there with no instant of the source in both. */
  lemma OccurrenceMeans(left: Fragment, right: Fragment)
    requires left.timelineStart < left.timelineEnd && right.timelineStart < right.timelineEnd
    requires left.sourceStart < left.sourceEnd && right.sourceStart < right.sourceEnd
    ensures SamePlayedOccurrence(left, right) <==>
            ShareTimeline(left, right) ||
            ((left.timelineEnd == right.timelineStart || right.timelineEnd == left.timelineStart) && !ShareSource(left, right))
  {
    OverlapIsShared(left.timelineStart, left.timelineEnd, right.timelineStart, right.timelineEnd);
    OverlapIsShared(left.sourceStart, left.sourceEnd, right.sourceStart, right.sourceEnd);
  }

  // ---- Connection: the transitive closure ---------------------------------------------

  ghost predicate Joined(fs: seq<Fragment>, i: nat, j: nat) {
    i < |fs| && j < |fs| && SamePlayedOccurrence(fs[i], fs[j])
  }

  ghost predicate Reaches(fs: seq<Fragment>, i: nat, j: nat, steps: nat)
    decreases steps
  {
    if steps == 0 then i == j && i < |fs|
    else exists m: nat :: Joined(fs, i, m) && Reaches(fs, m, j, steps - 1)
  }

  /** Linked by a chain of fragments, each the same occurrence as the next. */
  ghost predicate Connected(fs: seq<Fragment>, i: nat, j: nat) {
    exists steps: nat :: Reaches(fs, i, j, steps)
  }

  lemma {:induction false} ReachesOn(fs: seq<Fragment>, i: nat, j: nat, k: nat, a: nat, b: nat)
    requires Reaches(fs, i, j, a) && Reaches(fs, j, k, b)
    ensures Reaches(fs, i, k, a + b)
    decreases a
  {
    if a > 0 {
      var m: nat :| Joined(fs, i, m) && Reaches(fs, m, j, a - 1);
      ReachesOn(fs, m, j, k, a - 1, b);
    }
  }

  lemma {:induction false} ReachesBack(fs: seq<Fragment>, i: nat, j: nat, steps: nat)
    requires Reaches(fs, i, j, steps)
    ensures Reaches(fs, j, i, steps)
    decreases steps
  {
    if steps > 0 {
      var m: nat :| Joined(fs, i, m) && Reaches(fs, m, j, steps - 1);
      ReachesBack(fs, m, j, steps - 1);
      assert Joined(fs, m, i) && Reaches(fs, i, i, 0);
      assert Reaches(fs, m, i, 1);
      ReachesOn(fs, j, m, i, steps - 1, 1);
    }
  }

  lemma ConnectedJoins(fs: seq<Fragment>, i: nat, a: nat, b: nat, j: nat)
    requires Connected(fs, i, a) && Joined(fs, a, b) && Connected(fs, b, j)
    ensures Connected(fs, i, j) && Connected(fs, j, i)
  {
    var x: nat :| Reaches(fs, i, a, x);
    var y: nat :| Reaches(fs, b, j, y);
    assert Reaches(fs, a, j, y + 1);
    ReachesOn(fs, i, a, j, x, y + 1);
    ReachesBack(fs, i, j, x + (y + 1));
  }

  // ---- The forest ----------------------------------------------------------------------

  /** An index's parent shares its representative and, unless it is itself, is strictly lower. */
  ghost predicate Leads(parents: seq<nat>, root: seq<nat>, height: seq<nat>, i: nat)
    requires |root| == |parents| == |height| && i < |parents|
  {
    var p, r := parents[i], root[i];
    && p < |parents|
    && r < |parents|
    && root[p] == r
    && parents[r] == r
    && (if p == i then r == i else height[p] < height[i])
  }

  /** Every index leads to its representative, so there is no cycle. */
  ghost predicate Forest(parents: seq<nat>, root: seq<nat>, height: seq<nat>) {
    |root| == |parents| == |height| && forall i: nat :: i < |parents| ==> Leads(parents, root, height, i)
  }

  lemma Halve(parents: seq<nat>, root: seq<nat>, height: seq<nat>, i: nat)
    requires Forest(parents, root, height) && i < |parents|
    ensures parents[i] < |parents| && Leads(parents, root, height, i) && Leads(parents, root, height, parents[i])
    ensures Forest(parents[i := parents[parents[i]]], root, height)
    ensures parents[i] != i ==> height[parents[parents[i]]] < height[i]
  {
    assert Leads(parents, root, height, i);
    var p := parents[i];
    assert Leads(parents, root, height, p);
    var halved := parents[i := parents[p]];
    assert Leads(parents, root, height, root[i]);
    forall k: nat | k < |parents|
      ensures Leads(halved, root, height, k)
    {
      assert Leads(parents, root, height, k);
      assert Leads(parents, root, height, root[k]);
    }
  }

  /** The representative of an index; parents on the way are replaced by grandparents. */
  method FindRoot(parents: array<nat>, index: nat, ghost root: seq<nat>, ghost height: seq<nat>) returns (r: nat)
    requires Forest(parents[..], root, height) && index < parents.Length
    modifies parents
    ensures Forest(parents[..], root, height)
    ensures r == root[index] && r < parents.Length && parents[r] == r
  {
    r := index;
    while parents[r] != r
      invariant Forest(parents[..], root, height)
      invariant r < parents.Length && root[r] == root[index]
      decreases height[r]
    {
      Halve(parents[..], root, height, r);
      ghost var was := parents[..];
      parents[r] := parents[parents[r]];
      assert parents[..] == was[r := was[was[r]]];
      assert Leads(parents[..], root, height, r);
      r := parents[r];
    }
    assert Leads(parents[..], root, height, r);
  }

  /** The classes after the second root is hung under the first. */
  ghost function MergedRoots(root: seq<nat>, left: nat, right: nat): (r: seq<nat>)
    ensures |r| == |root|
  {
    seq(|root|, i requires 0 <= i < |root| => if root[i] == right then left else root[i])
  }

  ghost function MergedHeights(root: seq<nat>, height: seq<nat>, left: nat, right: nat): (r: seq<nat>)
    requires |height| == |root| && left < |root|
    ensures |r| == |root|
  {
    seq(|root|, i requires 0 <= i < |root| => if root[i] == right then height[i] + height[left] + 1 else height[i])
  }

  lemma Merge(parents: seq<nat>, root: seq<nat>, height: seq<nat>, left: nat, right: nat)
    requires Forest(parents, root, height)
    requires left < |parents| && right < |parents| && parents[left] == left && parents[right] == right && left != right
    ensures Forest(parents[right := left], MergedRoots(root, left, right), MergedHeights(root, height, left, right))
  {
    var merged, roots, heights := parents[right := left], MergedRoots(root, left, right),
                                  MergedHeights(root, height, left, right);
    assert Leads(parents, root, height, left) && Leads(parents, root, height, right);
    forall k: nat | k < |parents|
      ensures Leads(merged, roots, heights, k)
    {
      assert Leads(parents, root, height, k);
    }
  }

  // ---- Clustering -------------------------------------------------------------------------

  /** Indices with the same representative are connected. */
  ghost predicate Sound(fs: seq<Fragment>, root: seq<nat>) {
    |root| == |fs| && forall i, j :: 0 <= i < |fs| && 0 <= j < |fs| && root[i] == root[j] ==> Connected(fs, i, j)
  }

  /** Every pair looked at so far that is the same occurrence has one representative. */
  ghost predicate Covered(fs: seq<Fragment>, root: seq<nat>, left: nat, right: nat) {
    |root| == |fs| &&
    forall i, j :: 0 <= i < j < |fs| && (i < left || (i == left && j < right)) && Joined(fs, i, j) ==> root[i] == root[j]
  }

  lemma MergeSound(fs: seq<Fragment>, root: seq<nat>, left: nat, right: nat)
    requires Sound(fs, root) && Joined(fs, left, right)
    ensures Sound(fs, MergedRoots(root, root[left], root[right]))
  {
    var merged := MergedRoots(root, root[left], root[right]);
    forall i, j | 0 <= i < |fs| && 0 <= j < |fs| && merged[i] == merged[j]
      ensures Connected(fs, i, j)
    {
      if root[i] != root[j] {
        if root[i] == root[left] {
          ConnectedJoins(fs, i, left, right, j);
        } else {
          ConnectedJoins(fs, j, left, right, i);
        }
      }
    }
  }

  lemma MergeCovered(fs: seq<Fragment>, root: seq<nat>, left: nat, right: nat)
    requires Covered(fs, root, left, right) && left < right < |fs|
    ensures Covered(fs, MergedRoots(root, root[left], root[right]), left, right + 1)
  {
  }

  /** When every pair has been looked at, connected indices have one representative. */
  lemma {:induction false} ClosureCovered(fs: seq<Fragment>, root: seq<nat>, i: nat, j: nat, steps: nat)
    requires Covered(fs, root, |fs|, 0) && Reaches(fs, i, j, steps)
    ensures i < |fs| && j < |fs| && root[i] == root[j]
    decreases steps
  {
    if steps > 0 {
      var m: nat :| Joined(fs, i, m) && Reaches(fs, m, j, steps - 1);
      ClosureCovered(fs, root, m, j, steps - 1);
      if i < m {
        assert root[i] == root[m];
      } else if m < i {
        assert Joined(fs, m, i);
        assert root[i] == root[m];
      }
    }
  }

  /** Representatives are exactly the classes of the transitive closure. */
  ghost predicate Partitioned(fs: seq<Fragment>, root: seq<nat>) {
    |root| == |fs| && forall i, j :: 0 <= i < |fs| && 0 <= j < |fs| ==> (root[i] == root[j] <==> Connected(fs, i, j))
  }

  lemma AllCovered(fs: seq<Fragment>, root: seq<nat>)
    requires Sound(fs, root) && Covered(fs, root, |fs|, 0)
    ensures Partitioned(fs, root)
  {
    forall i, j | 0 <= i < |fs| && 0 <= j < |fs| && Connected(fs, i, j)
      ensures root[i] == root[j]
    {
      var steps: nat :| Reaches(fs, i, j, steps);
      ClosureCovered(fs, root, i, j, steps);
    }
  }

  lemma Alone(fs: seq<Fragment>, root: seq<nat>)
    requires |root| == |fs| && forall i :: 0 <= i < |fs| ==> root[i] == i
    ensures Sound(fs, root)
  {
    forall i, j | 0 <= i < |fs| && 0 <= j < |fs| && root[i] == root[j]
      ensures Connected(fs, i, j)
    {
      assert Reaches(fs, i, j, 0);
    }
  }

  /** Looks at one pair. */
  method UnitePair(fs: seq<Fragment>, parents: array<nat>, left: nat, right: nat, ghost root0: seq<nat>,
                   ghost height0: seq<nat>) returns (ghost root: seq<nat>, ghost height: seq<nat>)
    requires parents.Length == |fs| && left < right < |fs|
    requires Forest(parents[..], root0, height0) && Sound(fs, root0) && Covered(fs, root0, left, right)
    modifies parents
    ensures Forest(parents[..], root, height) && Sound(fs, root) && Covered(fs, root, left, right + 1)
  {
    root, height := root0, height0;
    if !SamePlayedOccurrence(fs[left], fs[right]) {
      return;
    }
    var leftRoot := FindRoot(parents, left, root, height);
    var rightRoot := FindRoot(parents, right, root, height);
    assert Leads(parents[..], root, height, left) && parents[leftRoot] == leftRoot;
    if leftRoot != rightRoot {
      Merge(parents[..], root, height, leftRoot, rightRoot);
      MergeSound(fs, root, left, right);
      MergeCovered(fs, root, left, right);
      parents[rightRoot] := leftRoot;
      root, height := MergedRoots(root, leftRoot, rightRoot), MergedHeights(root, height, leftRoot, rightRoot);
    }
  }

  method Unite(fs: seq<Fragment>) returns (parents: array<nat>, ghost root: seq<nat>, ghost height: seq<nat>)
    ensures fresh(parents) && parents.Length == |fs|
    ensures Forest(parents[..], root, height) && Partitioned(fs, root)
  {
    parents := new nat[|fs|](i => i);
    root, height := parents[..], seq(|fs|, i => 0);
    Alone(fs, root);
    var left := 0;
    while left < |fs|
      invariant 0 <= left <= |fs|
      invariant Forest(parents[..], root, height) && Sound(fs, root) && Covered(fs, root, left, 0)
    {
      var right := left + 1;
      while right < |fs|
        invariant left < right <= |fs|
        invariant Forest(parents[..], root, height) && Sound(fs, root) && Covered(fs, root, left, right)
      {
        root, height := UnitePair(fs, parents, left, right, root, height);
        right := right + 1;
      }
      left := left + 1;
    }
    AllCovered(fs, root);
  }

  // ---- Choosing ------------------------------------------------------------------------------

  /** More of the word is heard; or as much, earlier; or as much and as early, and listed no later. */
  ghost predicate Beats(fs: seq<Fragment>, w: nat, k: nat)
    requires w < |fs| && k < |fs|
  {
    || fs[w].overlap > fs[k].overlap
    || (fs[w].overlap == fs[k].overlap && fs[w].timelineStart < fs[k].timelineStart)
    || (fs[w].overlap == fs[k].overlap && fs[w].timelineStart == fs[k].timelineStart && w <= k)
  }

  ghost predicate Increasing(s: seq<nat>) {
    forall i, j :: 0 <= i < j < |s| ==> s[i] < s[j]
  }

  /** Among the first indices, those with that representative, in order. */
  ghost predicate IsClass(cluster: seq<nat>, root: seq<nat>, r: nat, upto: nat)
    requires upto <= |root|
  {
    && cluster != []
    && Increasing(cluster)
    && forall k: nat :: k in cluster <==> k < upto && root[k] == r
  }

  ghost predicate AreClasses(clusters: map<nat, seq<nat>>, root: seq<nat>, upto: nat)
    requires upto <= |root|
  {
    && (forall r :: r in clusters ==> IsClass(clusters[r], root, r, upto))
    && (forall k :: 0 <= k < upto ==> root[k] in clusters)
  }

  function Filed(clusters: map<nat, seq<nat>>, r: nat, index: nat): map<nat, seq<nat>> {
    clusters[r := (if r in clusters then clusters[r] else []) + [index]]
  }

  lemma ClassGrows(clusters: map<nat, seq<nat>>, root: seq<nat>, index: nat)
    requires index < |root| && AreClasses(clusters, root, index)
    ensures AreClasses(Filed(clusters, root[index], index), root, index + 1)
  {
    var r := root[index];
    var was := if r in clusters then clusters[r] else [];
    var now := Filed(clusters, r, index);
    forall i | 0 <= i < |was|
      ensures was[i] < index
    {
      assert was[i] in was;
    }
    assert IsClass(now[r], root, r, index + 1);
    forall x | x in clusters && x != r
      ensures IsClass(now[x], root, x, index + 1)
    {
      assert IsClass(clusters[x], root, x, index);
    }
  }

  /** The members of each class, under its representative, in order. */
  method Clusters(parents: array<nat>, ghost root: seq<nat>, ghost height: seq<nat>) returns (clusters: map<nat, seq<nat>>)
    requires Forest(parents[..], root, height)
    modifies parents
    ensures AreClasses(clusters, root, |root|)
  {
    clusters := map[];
    var index := 0;
    while index < parents.Length
      invariant 0 <= index <= parents.Length && Forest(parents[..], root, height)
      invariant AreClasses(clusters, root, index)
    {
      var r := FindRoot(parents, index, root, height);
      ClassGrows(clusters, root, index);
      clusters := Filed(clusters, r, index);
      index := index + 1;
    }
  }

  method Winner(fs: seq<Fragment>, cluster: seq<nat>) returns (winner: nat)
    requires cluster != [] && Increasing(cluster) && forall i :: 0 <= i < |cluster| ==> cluster[i] < |fs|
    ensures winner in cluster && winner < |fs|
    ensures forall k :: 0 <= k < |cluster| ==> Beats(fs, winner, cluster[k])
  {
    winner := cluster[0];
    var i := 0;
    while i < |cluster|
      invariant 0 <= i <= |cluster| && winner in cluster && winner < |fs|
      invariant i > 0 ==> winner in cluster[..i]
      invariant i == 0 ==> winner == cluster[0]
      invariant forall k :: 0 <= k < i ==> Beats(fs, winner, cluster[k])
    {
      var index := cluster[i];
      if fs[index].overlap > fs[winner].overlap ||
         (fs[index].overlap == fs[winner].overlap && fs[index].timelineStart < fs[winner].timelineStart) {
        winner := index;
      }
      i := i + 1;
    }
  }

  /** Winners of different classes, each the best of its own. */
  ghost predicate AreBest(fs: seq<Fragment>, root: seq<nat>, winners: seq<nat>) {
    && |root| == |fs|
    && (forall a :: 0 <= a < |winners| ==> winners[a] < |fs|)
    && (forall a, b :: 0 <= a < b < |winners| ==> root[winners[a]] != root[winners[b]])
    && (forall a :: 0 <= a < |winners| ==> IsBest(fs, root, winners[a]))
  }

  ghost predicate IsBest(fs: seq<Fragment>, root: seq<nat>, w: nat)
    requires |root| == |fs| && w < |fs|
  {
    forall k :: 0 <= k < |fs| && root[k] == root[w] ==> Beats(fs, w, k)
  }

  ghost predicate HasWinner(root: seq<nat>, winners: seq<nat>, r: nat) {
    exists a :: 0 <= a < |winners| && winners[a] < |root| && root[winners[a]] == r
  }

  lemma BestGrows(fs: seq<Fragment>, root: seq<nat>, winners: seq<nat>, w: nat)
    requires AreBest(fs, root, winners) && w < |fs| && IsBest(fs, root, w) && !HasWinner(root, winners, root[w])
    ensures AreBest(fs, root, winners + [w]) && HasWinner(root, winners + [w], root[w])
    ensures forall r :: HasWinner(root, winners + [w], r) <==> HasWinner(root, winners, r) || r == root[w]
  {
    var more := winners + [w];
    assert more[|winners|] == w;
    forall r | HasWinner(root, winners, r)
      ensures HasWinner(root, more, r)
    {
      var a :| 0 <= a < |winners| && winners[a] < |root| && root[winners[a]] == r;
      assert more[a] == winners[a];
    }
  }

  lemma ClassMembers(fs: seq<Fragment>, root: seq<nat>, cluster: seq<nat>, r: nat)
    requires |root| == |fs| && IsClass(cluster, root, r, |root|)
    ensures forall i :: 0 <= i < |cluster| ==> cluster[i] < |fs| && root[cluster[i]] == r
  {
    forall i | 0 <= i < |cluster|
      ensures cluster[i] < |fs| && root[cluster[i]] == r
    {
      assert cluster[i] in cluster;
    }
  }

  lemma BestOfClass(fs: seq<Fragment>, root: seq<nat>, cluster: seq<nat>, r: nat, w: nat)
    requires |root| == |fs| && IsClass(cluster, root, r, |root|) && w in cluster
    requires forall i :: 0 <= i < |cluster| ==> cluster[i] < |fs|
    requires forall k :: 0 <= k < |cluster| ==> Beats(fs, w, cluster[k])
    ensures w < |fs| && root[w] == r && IsBest(fs, root, w)
  {
  }

  method Winners(fs: seq<Fragment>, clusters: map<nat, seq<nat>>, ghost root: seq<nat>) returns (winners: seq<nat>)
    requires |root| == |fs| && AreClasses(clusters, root, |root|)
    ensures AreBest(fs, root, winners) && forall i :: 0 <= i < |fs| ==> HasWinner(root, winners, root[i])
  {
    winners := [];
    var left := clusters.Keys;
    while left != {}
      invariant left <= clusters.Keys && AreBest(fs, root, winners)
      invariant forall r :: r in clusters.Keys ==> (HasWinner(root, winners, r) <==> r !in left)
      decreases |left|
    {
      var r :| r in left;
      assert IsClass(clusters[r], root, r, |root|);
      ClassMembers(fs, root, clusters[r], r);
      var winner := Winner(fs, clusters[r]);
      BestOfClass(fs, root, clusters[r], r, winner);
      BestGrows(fs, root, winners, winner);
      winners := winners + [winner];
      left := left - {r};
    }
  }

  ghost predicate Represented(fs: seq<Fragment>, winners: seq<nat>, i: nat) {
    exists a :: 0 <= a < |winners| && Connected(fs, winners[a], i)
  }

  /** One fragment of every played occurrence, the best of it. */
  ghost predicate OneOfEach(fs: seq<Fragment>, winners: seq<nat>) {
    && (forall a :: 0 <= a < |winners| ==> winners[a] < |fs|)
    && (forall a, b :: 0 <= a < b < |winners| ==> !Connected(fs, winners[a], winners[b]))
    && (forall i :: 0 <= i < |fs| ==> Represented(fs, winners, i))
    && (forall a, k :: 0 <= a < |winners| && 0 <= k < |fs| && Connected(fs, winners[a], k) ==> Beats(fs, winners[a], k))
  }

  lemma BestIsOneOfEach(fs: seq<Fragment>, root: seq<nat>, winners: seq<nat>)
    requires Partitioned(fs, root) && AreBest(fs, root, winners)
    requires forall i :: 0 <= i < |fs| ==> HasWinner(root, winners, root[i])
    ensures OneOfEach(fs, winners)
  {
    forall i | 0 <= i < |fs|
      ensures Represented(fs, winners, i)
    {
      assert HasWinner(root, winners, root[i]);
      var a :| 0 <= a < |winners| && winners[a] < |root| && root[winners[a]] == root[i];
      assert Connected(fs, winners[a], i);
    }
    forall a, k | 0 <= a < |winners| && 0 <= k < |fs| && Connected(fs, winners[a], k)
      ensures Beats(fs, winners[a], k)
    {
      assert IsBest(fs, root, winners[a]);
      assert root[winners[a]] == root[k];
    }
  }

  method SelectOccurrences(fs: seq<Fragment>) returns (winners: seq<nat>)
    ensures OneOfEach(fs, winners)
  {
    ghost var root, height;
    var parents;
    parents, root, height := Unite(fs);
    var clusters := Clusters(parents, root, height);
    winners := Winners(fs, clusters, root);
    BestIsOneOfEach(fs, root, winners);
  }
}
