/** For an accepted list the flattened tree is the bins, each below its parent and as deep as it has ancestors. */
module BinTreeShape {
  import opened Options
  import opened Bins
  import opened BinTree

  // ---- Any list ------------------------------------------------------------------------

  ghost function EntryIds(es: seq<Entry>): set<Id> {
    set i | 0 <= i < |es| :: es[i].bin.id
  }

  ghost predicate NoRepeats(es: seq<Entry>) {
    forall i, j :: 0 <= i < j < |es| ==> es[i].bin.id != es[j].bin.id
  }

  lemma IdsJoin(a: seq<Entry>, b: seq<Entry>)
    ensures EntryIds(a + b) == EntryIds(a) + EntryIds(b)
  {
    forall id
      ensures id in EntryIds(a + b) <==> id in EntryIds(a) || id in EntryIds(b)
    {
      if id in EntryIds(a) {
        var i :| 0 <= i < |a| && a[i].bin.id == id;
        assert (a + b)[i].bin.id == id;
      }
      if id in EntryIds(b) {
        var i :| 0 <= i < |b| && b[i].bin.id == id;
        assert (a + b)[|a| + i].bin.id == id;
      }
    }
  }

  lemma RepeatsJoin(a: seq<Entry>, b: seq<Entry>)
    requires NoRepeats(a) && NoRepeats(b) && EntryIds(a) !! EntryIds(b)
    ensures NoRepeats(a + b)
  {
    forall i, j | 0 <= i < |a| && 0 <= j < |b|
      ensures a[i].bin.id != b[j].bin.id
    {
      assert a[i].bin.id in EntryIds(a) && b[j].bin.id in EntryIds(b);
    }
  }

  /** Nothing is shown twice, and what has been shown is exactly what is recorded. */
  lemma {:induction false} ShownOnce(bins: seq<Bin>, children: seq<Bin>, depth: nat, visited: set<Id>)
    requires AllIn(children, bins)
    ensures var r := Shown(bins, children, depth, visited);
            NoRepeats(r.0) && EntryIds(r.0) !! visited && r.1 == visited + EntryIds(r.0)
    decreases IdSet(bins) - visited, |children|
  {
    if children != [] {
      var c, more := children[0], children[1..];
      if c.id in visited {
        ShownOnce(bins, more, depth, visited);
      } else {
        LevelIn(bins, c.id);
        assert c in bins && c.id in IdSet(bins) - visited;
        var level := ByName(Under(bins, c.id));
        var below := Shown(bins, level, depth + 1, visited + {c.id});
        assert IdSet(bins) - below.1 < IdSet(bins) - visited;
        var rest := Shown(bins, more, depth, below.1);
        ShownOnce(bins, level, depth + 1, visited + {c.id});
        ShownOnce(bins, more, depth, below.1);
        OnceJoins(visited, Entry(c, depth), below.0, rest.0);
      }
    }
  }

  lemma OnceJoins(visited: set<Id>, e: Entry, below: seq<Entry>, rest: seq<Entry>)
    requires e.bin.id !in visited
    requires NoRepeats(below) && EntryIds(below) !! (visited + {e.bin.id})
    requires NoRepeats(rest) && EntryIds(rest) !! (visited + {e.bin.id} + EntryIds(below))
    ensures var all := [e] + (below + rest);
            NoRepeats(all) && EntryIds(all) !! visited &&
            visited + EntryIds(all) == visited + {e.bin.id} + EntryIds(below) + EntryIds(rest)
  {
    assert EntryIds([e]) == {e.bin.id} by {
      assert [e][0].bin.id == e.bin.id;
    }
    IdsJoin(below, rest);
    RepeatsJoin(below, rest);
    IdsJoin([e], below + rest);
    RepeatsJoin([e], below + rest);
  }

  /** The entry is one of the level being shown, or one step below an entry before it. */
  ghost predicate Placed(es: seq<Entry>, i: nat, children: seq<Bin>, depth: nat)
    requires i < |es|
  {
    (es[i].bin in children && es[i].depth == depth) || exists j :: 0 <= j < i && IsChild(es[j], es[i])
  }

  ghost predicate IsChild(above: Entry, e: Entry) {
    e.bin.parent == above.bin.id && e.depth == above.depth + 1
  }

  ghost predicate PlacedIn(bins: seq<Bin>, es: seq<Entry>, i: nat, children: seq<Bin>, depth: nat)
    requires i < |es|
  {
    es[i].bin in bins && Placed(es, i, children, depth)
  }

  ghost predicate AllPlaced(bins: seq<Bin>, es: seq<Entry>, children: seq<Bin>, depth: nat) {
    forall i: nat :: i < |es| ==> PlacedIn(bins, es, i, children, depth)
  }

  lemma BelowPlaced(all: seq<Entry>, e: Entry, below: seq<Entry>, rest: seq<Entry>, level: seq<Bin>, children: seq<Bin>,
                    i: nat)
    requires all == [e] + (below + rest) && 0 < i <= |below| && Placed(below, i - 1, level, e.depth + 1)
    requires forall b :: b in level ==> b.parent == e.bin.id
    ensures all[i] == below[i - 1] && Placed(all, i, children, e.depth)
  {
    assert all[i] == below[i - 1] && all[0] == e;
    if j :| 0 <= j < i - 1 && IsChild(below[j], below[i - 1]) {
      assert all[j + 1] == below[j];
      assert IsChild(all[j + 1], all[i]);
    } else {
      assert IsChild(all[0], all[i]);
    }
  }

  lemma RestPlaced(all: seq<Entry>, e: Entry, below: seq<Entry>, rest: seq<Entry>, children: seq<Bin>, i: nat)
    requires all == [e] + (below + rest) && |below| < i < |all| && children != []
    requires Placed(rest, i - 1 - |below|, children[1..], e.depth)
    ensures all[i] == rest[i - 1 - |below|] && Placed(all, i, children, e.depth)
  {
    var k := i - 1 - |below|;
    assert all[i] == rest[k];
    if j :| 0 <= j < k && IsChild(rest[j], rest[k]) {
      assert all[j + 1 + |below|] == rest[j];
      assert IsChild(all[j + 1 + |below|], all[i]);
    } else {
      assert rest[k].bin in children[1..];
      assert rest[k].bin in children;
    }
  }

  lemma PlacedJoins(bins: seq<Bin>, children: seq<Bin>, depth: nat, below: seq<Entry>, rest: seq<Entry>, all: seq<Entry>)
    requires children != [] && children[0] in bins && all == [Entry(children[0], depth)] + (below + rest)
    requires AllPlaced(bins, below, ByName(Under(bins, children[0].id)), depth + 1)
    requires AllPlaced(bins, rest, children[1..], depth)
    ensures AllPlaced(bins, all, children, depth)
  {
    var e, level := Entry(children[0], depth), ByName(Under(bins, children[0].id));
    LevelIs(bins, children[0].id);
    forall i: nat | i < |all|
      ensures PlacedIn(bins, all, i, children, depth)
    {
      if i == 0 {
        assert all[0] == e;
      } else if i <= |below| {
        assert PlacedIn(bins, below, i - 1, level, depth + 1);
        BelowPlaced(all, e, below, rest, level, children, i);
      } else {
        assert PlacedIn(bins, rest, i - 1 - |below|, children[1..], depth);
        RestPlaced(all, e, below, rest, children, i);
      }
    }
  }

  lemma {:induction false} ShownPlaced(bins: seq<Bin>, children: seq<Bin>, depth: nat, visited: set<Id>)
    requires AllIn(children, bins)
    ensures AllPlaced(bins, Shown(bins, children, depth, visited).0, children, depth)
    decreases IdSet(bins) - visited, |children|
  {
    if children != [] {
      var c, more := children[0], children[1..];
      if c.id in visited {
        ShownPlaced(bins, more, depth, visited);
        PlacedMore(bins, Shown(bins, more, depth, visited).0, children, depth);
      } else {
        LevelIn(bins, c.id);
        assert c in bins && c.id in IdSet(bins) - visited;
        var level := ByName(Under(bins, c.id));
        var below := Shown(bins, level, depth + 1, visited + {c.id});
        assert IdSet(bins) - below.1 < IdSet(bins) - visited;
        ShownPlaced(bins, level, depth + 1, visited + {c.id});
        ShownPlaced(bins, more, depth, below.1);
        PlacedJoins(bins, children, depth, below.0, Shown(bins, more, depth, below.1).0,
                    Shown(bins, children, depth, visited).0);
      }
    }
  }

  lemma PlacedMore(bins: seq<Bin>, es: seq<Entry>, children: seq<Bin>, depth: nat)
    requires children != [] && AllPlaced(bins, es, children[1..], depth)
    ensures AllPlaced(bins, es, children, depth)
  {
    forall i: nat | i < |es|
      ensures PlacedIn(bins, es, i, children, depth)
    {
      assert PlacedIn(bins, es, i, children[1..], depth);
    }
  }

  /** Everything under what has been shown has been shown. */
  ghost predicate ClosedBelow(bins: seq<Bin>, visited: set<Id>, after: set<Id>) {
    forall b :: b in bins && b.parent in after - visited ==> b.id in after
  }

  lemma {:induction false} ShownAll(bins: seq<Bin>, children: seq<Bin>, depth: nat, visited: set<Id>)
    requires AllIn(children, bins)
    ensures var after := Shown(bins, children, depth, visited).1;
            ClosedBelow(bins, visited, after) && forall b :: b in children ==> b.id in after
    decreases IdSet(bins) - visited, |children|
  {
    if children != [] {
      var c, more := children[0], children[1..];
      assert children == [c] + more;
      if c.id in visited {
        ShownAll(bins, more, depth, visited);
      } else {
        LevelIn(bins, c.id);
        assert c in bins && c.id in IdSet(bins) - visited;
        var level := ByName(Under(bins, c.id));
        var below := Shown(bins, level, depth + 1, visited + {c.id});
        assert IdSet(bins) - below.1 < IdSet(bins) - visited;
        ShownAll(bins, level, depth + 1, visited + {c.id});
        ShownAll(bins, more, depth, below.1);
        LevelIs(bins, c.id);
      }
    }
  }

  /** Flattening shows no bin twice, whatever the list. */
  lemma TreeHasNoRepeats(bins: seq<Bin>)
    ensures NoRepeats(Tree(bins)) && forall i :: 0 <= i < |Tree(bins)| ==> Tree(bins)[i].bin in bins
  {
    LevelIn(bins, NO_ID);
    ShownOnce(bins, ByName(Under(bins, NO_ID)), 0, {});
    ShownPlaced(bins, ByName(Under(bins, NO_ID)), 0, {});
    forall i: nat | i < |Tree(bins)|
      ensures Tree(bins)[i].bin in bins
    {
      assert PlacedIn(bins, Tree(bins), i, ByName(Under(bins, NO_ID)), 0);
    }
  }

  // ---- Hierarchies --------------------------------------------------------------------------

  lemma NeverMet(bins: seq<Bin>, i: nat, steps: nat, ancestors: set<Id>, id: Id)
    requires UniqueIds(bins) && Acyclic(bins) && i < |bins|
    requires Passed(bins, i, steps, ancestors) && IdAt(bins, i, steps, id)
    ensures id !in ancestors
  {
    if id in ancestors {
      var k: nat :| k < steps && IdAt(bins, i, k, id);
      MetAgain(bins, i, steps, k, id);
    }
  }

  /** In a hierarchy every way up ends. */
  lemma {:induction false} WayEnds(bins: seq<Bin>, i: nat, steps: nat, ancestors: set<Id>) returns (end: nat)
    requires UniqueIds(bins) && Acyclic(bins) && i < |bins|
    requires Passed(bins, i, steps, ancestors) && ancestors <= Ids(bins)
    ensures Climb(bins, i, end).None?
    decreases Ids(bins) - ancestors
  {
    end := steps;
    if Climb(bins, i, steps).Some? {
      var id := bins[Climb(bins, i, steps).value].id;
      assert IdAt(bins, i, steps, id);
      NeverMet(bins, i, steps, ancestors, id);
      PassedMore(bins, i, steps, ancestors, id);
      end := WayEnds(bins, i, steps + 1, ancestors + {id});
    }
  }

  lemma ParentStep(bins: seq<Bin>, i: nat, p: nat, k: nat)
    requires i < |bins| && Parent(bins, i) == Some(p)
    ensures Climb(bins, i, k + 1) == Climb(bins, p, k)
  {
    assert Climb(bins, i, 0) == Some(i);
    assert Climb(bins, i, 1) == Some(p);
    ClimbOn(bins, i, 1, k);
  }

  ghost predicate ShownIf(b: Bin, after: set<Id>) {
    b.parent == NO_ID || b.parent in after ==> b.id in after
  }

  /** Shown at the top, and below everything shown. */
  ghost predicate ShowsTopAndBelow(bins: seq<Bin>, after: set<Id>) {
    forall i {:trigger ShownIf(bins[i], after)} :: 0 <= i < |bins| ==> ShownIf(bins[i], after)
  }

  lemma TreeShowsTopAndBelow(bins: seq<Bin>)
    requires AllIn(ByName(Under(bins, NO_ID)), bins)
    ensures ShowsTopAndBelow(bins, Shown(bins, ByName(Under(bins, NO_ID)), 0, {}).1)
  {
    var level := ByName(Under(bins, NO_ID));
    LevelIs(bins, NO_ID);
    ShownAll(bins, level, 0, {});
    forall i | 0 <= i < |bins|
      ensures ShownIf(bins[i], Shown(bins, level, 0, {}).1)
    {
      assert bins[i] in bins;
    }
  }

  /** Every bin of a hierarchy is shown. */
  lemma {:induction false} Reached(bins: seq<Bin>, i: nat, end: nat, after: set<Id>)
    requires ParentsExist(bins) && i < |bins| && Climb(bins, i, end).None? && ShowsTopAndBelow(bins, after)
    ensures bins[i].id in after
    decreases end
  {
    assert ShownIf(bins[i], after);
    if bins[i].parent != NO_ID {
      assert HasBin(bins, bins[i].parent);
      var p := IndexOf(bins, bins[i].parent);
      assert Parent(bins, i) == Some(p);
      ParentStep(bins, i, p, end - 1);
      Reached(bins, p, end - 1, after);
    }
  }

  /** The bin has that many ancestors. */
  ghost predicate HasAncestors(bins: seq<Bin>, i: nat, n: nat) {
    i < |bins| && Climb(bins, i, n).Some? && Climb(bins, i, n + 1).None?
  }

  lemma TopHasNone(bins: seq<Bin>, i: nat)
    requires i < |bins| && bins[i].parent == NO_ID
    ensures HasAncestors(bins, i, 0)
  {
  }

  lemma OneMoreAncestor(bins: seq<Bin>, i: nat, p: nat, n: nat)
    requires UniqueIds(bins) && i < |bins| && HasAncestors(bins, p, n)
    requires bins[i].parent == bins[p].id != NO_ID
    ensures HasAncestors(bins, i, n + 1)
  {
    assert IndexOf(bins, bins[i].parent) == p;
    assert Parent(bins, i) == Some(p);
    ParentStep(bins, i, p, n);
    ParentStep(bins, i, p, n + 1);
  }

  /** An entry of the list with as many ancestors as the entry is deep. */
  ghost predicate DepthRight(bins: seq<Bin>, e: Entry) {
    exists i: nat :: i < |bins| && bins[i] == e.bin && HasAncestors(bins, i, e.depth)
  }

  lemma {:induction false} DepthIsAncestors(bins: seq<Bin>, es: seq<Entry>, level: seq<Bin>, n: nat)
    requires UniqueIds(bins) && n < |es| && AllPlaced(bins, es, level, 0)
    requires forall b :: b in level ==> b.parent == NO_ID
    requires forall i :: 0 <= i < |bins| ==> bins[i].id != NO_ID
    ensures DepthRight(bins, es[n])
    decreases n
  {
    assert PlacedIn(bins, es, n, level, 0);
    var i: nat :| i < |bins| && bins[i] == es[n].bin;
    if j :| 0 <= j < n && IsChild(es[j], es[n]) {
      DepthIsAncestors(bins, es, level, j);
      var p: nat :| p < |bins| && bins[p] == es[j].bin && HasAncestors(bins, p, es[j].depth);
      OneMoreAncestor(bins, i, p, es[j].depth);
    } else {
      TopHasNone(bins, i);
    }
  }

  /**
   For an accepted list: every bin exactly once, every bin after its parent
   and one deeper, and each depth the number of ancestors.
   */
  lemma TreeOfHierarchy(bins: seq<Bin>, taken: set<Id>)
    requires IsHierarchy(bins, taken)
    ensures NoRepeats(Tree(bins))
    ensures forall b :: b in bins <==> Appears(Tree(bins), b)
    ensures forall n :: 0 <= n < |Tree(bins)| ==> FollowsParent(Tree(bins), n) && DepthRight(bins, Tree(bins)[n])
  {
    var level, es := ByName(Under(bins, NO_ID)), Tree(bins);
    LevelIn(bins, NO_ID);
    LevelIs(bins, NO_ID);
    TreeHasNoRepeats(bins);
    ShownPlaced(bins, level, 0, {});
    forall n | 0 <= n < |es|
      ensures FollowsParent(es, n) && DepthRight(bins, es[n])
    {
      assert PlacedIn(bins, es, n, level, 0);
      DepthIsAncestors(bins, es, level, n);
    }
    forall b
      ensures b in bins <==> Appears(es, b)
    {
      if b in bins {
        AppearsOnce(bins, b);
      }
    }
  }

  ghost predicate Appears(es: seq<Entry>, b: Bin) {
    exists n :: 0 <= n < |es| && es[n].bin == b
  }

  /** At the top, or one step below an entry before it that is its parent. */
  ghost predicate FollowsParent(es: seq<Entry>, n: nat)
    requires n < |es|
  {
    (es[n].bin.parent == NO_ID && es[n].depth == 0) || exists m :: 0 <= m < n && IsChild(es[m], es[n])
  }

  lemma AppearsOnce(bins: seq<Bin>, b: Bin)
    requires UniqueIds(bins) && Acyclic(bins) && ParentsExist(bins) && b in bins
    ensures Appears(Tree(bins), b)
  {
    var i :| 0 <= i < |bins| && bins[i] == b;
    LevelIn(bins, NO_ID);
    var end := WayEnds(bins, i, 0, {});
    TreeShowsTopAndBelow(bins);
    Reached(bins, i, end, Shown(bins, ByName(Under(bins, NO_ID)), 0, {}).1);
    ShownOnce(bins, ByName(Under(bins, NO_ID)), 0, {});
    TreeHasNoRepeats(bins);
    var n :| 0 <= n < |Tree(bins)| && Tree(bins)[n].bin.id == b.id;
    var k :| 0 <= k < |bins| && bins[k] == Tree(bins)[n].bin;
    assert bins[k].id == bins[i].id;
    assert k == i;
  }
}
