/**
 The hierarchy of bins: the check that a document's bins form one, and the
 browser's flattening of it. Zero stands for no identity: the parent of a
 top-level bin.
 */
module Bins {
  import opened Options

  type Id = nat

  const NO_ID: Id := 0

  datatype Bin = Bin(id: Id, name: string, parent: Id)

  datatype Problem = InvalidId(at: nat) | DuplicateId(at: nat) | EmptyName(at: nat) | UnknownParent(at: nat) | Cycle(at: nat)

  // ---- The parent relation -------------------------------------------------------------

  /** The first bin with an identity, or the number of bins. */
  function IndexOf(bins: seq<Bin>, id: Id): (i: nat)
    ensures i <= |bins|
    ensures i < |bins| ==> bins[i].id == id
    ensures forall k :: 0 <= k < i ==> bins[k].id != id
  {
    if bins == [] || bins[0].id == id then 0
    else
      var i := 1 + IndexOf(bins[1..], id);
      assert forall k :: 0 < k < i ==> bins[k] == bins[1..][k - 1];
      i
  }

  method FindBin(bins: seq<Bin>, id: Id) returns (i: nat)
    ensures i == IndexOf(bins, id)
  {
    i := 0;
    while i < |bins|
      invariant 0 <= i <= |bins|
      invariant forall k :: 0 <= k < i ==> bins[k].id != id
    {
      if bins[i].id == id {
        break;
      }
      i := i + 1;
    }
  }

  ghost function Parent(bins: seq<Bin>, j: nat): (p: Option<nat>)
    requires j < |bins|
    ensures p.Some? ==> p.value < |bins|
  {
    if bins[j].parent == NO_ID || IndexOf(bins, bins[j].parent) == |bins| then None
    else Some(IndexOf(bins, bins[j].parent))
  }

  ghost predicate InRange(bins: seq<Bin>, o: Option<nat>) {
    o.Some? ==> o.value < |bins|
  }

  ghost function Up(bins: seq<Bin>, o: Option<nat>): (p: Option<nat>)
    requires InRange(bins, o)
    ensures InRange(bins, p)
  {
    if o.None? then None else Parent(bins, o.value)
  }

  /** The ancestor so many steps up, if there is one that far. */
  ghost function Climb(bins: seq<Bin>, i: nat, steps: nat): (o: Option<nat>)
    requires i < |bins|
    ensures InRange(bins, o)
    decreases steps
  {
    if steps == 0 then Some(i) else Up(bins, Climb(bins, i, steps - 1))
  }

  ghost predicate OnCycle(bins: seq<Bin>, i: nat) {
    i < |bins| && exists k: nat :: k > 0 && Climb(bins, i, k) == Some(i)
  }

  ghost predicate Acyclic(bins: seq<Bin>) {
    forall i: nat :: i < |bins| ==> !OnCycle(bins, i)
  }

  ghost predicate UniqueIds(bins: seq<Bin>) {
    forall i, j :: 0 <= i < j < |bins| ==> bins[i].id != bins[j].id
  }

  ghost predicate HasBin(bins: seq<Bin>, id: Id) {
    exists i :: 0 <= i < |bins| && bins[i].id == id
  }

  ghost predicate ParentsExist(bins: seq<Bin>) {
    forall i :: 0 <= i < |bins| && bins[i].parent != NO_ID ==> HasBin(bins, bins[i].parent)
  }

  /** Identities are valid, new and unique, names are not empty. */
  ghost predicate WellNamed(bins: seq<Bin>, taken: set<Id>) {
    UniqueIds(bins) &&
    forall i :: 0 <= i < |bins| ==> bins[i].id != NO_ID && bins[i].id !in taken && bins[i].name != ""
  }

  /** What the check is for. */
  ghost predicate IsHierarchy(bins: seq<Bin>, taken: set<Id>) {
    WellNamed(bins, taken) && ParentsExist(bins) && Acyclic(bins)
  }

  // ---- Climbing ------------------------------------------------------------------------------

  lemma {:induction false} ClimbOn(bins: seq<Bin>, i: nat, a: nat, b: nat)
    requires i < |bins| && Climb(bins, i, a).Some?
    ensures Climb(bins, i, a + b) == Climb(bins, Climb(bins, i, a).value, b)
    decreases b
  {
    if b > 0 {
      var x := Climb(bins, i, a).value;
      ClimbOn(bins, i, a, b - 1);
      assert Climb(bins, i, a + b) == Up(bins, Climb(bins, i, a + (b - 1)));
      assert Climb(bins, x, b) == Up(bins, Climb(bins, x, b - 1));
    }
  }

  /** Going round a cycle never leaves it. */
  lemma {:induction false} Around(bins: seq<Bin>, i: nat, k: nat, steps: nat)
    requires i < |bins| && k > 0 && Climb(bins, i, k) == Some(i)
    ensures Climb(bins, i, steps).Some?
    decreases steps
  {
    if steps >= k {
      Around(bins, i, k, steps - k);
      ClimbOn(bins, i, k, steps - k);
      assert k + (steps - k) == steps;
    } else if Climb(bins, i, steps).None? {
      StaysNone(bins, i, steps, k);
    }
  }

  lemma {:induction false} StaysNone(bins: seq<Bin>, i: nat, a: nat, b: nat)
    requires i < |bins| && a <= b && Climb(bins, i, a).None?
    ensures Climb(bins, i, b).None?
    decreases b
  {
    if a < b {
      StaysNone(bins, i, a, b - 1);
    }
  }

  // ---- The check --------------------------------------------------------------------------------

  /** The identities passed on the way up. */
  ghost predicate Passed(bins: seq<Bin>, i: nat, steps: nat, ancestors: set<Id>)
    requires i < |bins|
  {
    forall id :: id in ancestors <==> exists k: nat :: k < steps && IdAt(bins, i, k, id)
  }

  ghost predicate IdAt(bins: seq<Bin>, i: nat, k: nat, id: Id)
    requires i < |bins|
  {
    Climb(bins, i, k).Some? && bins[Climb(bins, i, k).value].id == id
  }

  /** Meeting an identity again on the way up means there is a cycle. */
  lemma MetAgain(bins: seq<Bin>, i: nat, steps: nat, k: nat, id: Id)
    requires UniqueIds(bins) && i < |bins| && k < steps && IdAt(bins, i, k, id) && IdAt(bins, i, steps, id)
    ensures !Acyclic(bins)
  {
    var x := Climb(bins, i, k).value;
    assert Climb(bins, i, steps) == Some(x) by {
      var y := Climb(bins, i, steps).value;
      assert bins[x].id == bins[y].id;
    }
    ClimbOn(bins, i, k, steps - k);
    assert k + (steps - k) == steps;
    assert Climb(bins, x, steps - k) == Some(x);
    assert OnCycle(bins, x);
  }

  /** One bin's walk up: it ends, and finds a cycle only if there is one. */
  method Walk(bins: seq<Bin>, i: nat) returns (cycle: bool, ghost steps: nat)
    requires UniqueIds(bins) && i < |bins|
    ensures cycle ==> !Acyclic(bins)
    ensures !cycle ==> Climb(bins, i, steps).None?
  {
    var ancestors: set<Id> := {};
    var cursor := i;
    steps := 0;
    while bins[cursor].parent != NO_ID
      invariant cursor < |bins| && Climb(bins, i, steps) == Some(cursor)
      invariant Passed(bins, i, steps, ancestors) && ancestors <= Ids(bins)
      decreases Ids(bins) - ancestors
    {
      if bins[cursor].id in ancestors {
        ghost var k: nat :| k < steps && IdAt(bins, i, k, bins[cursor].id);
        assert IdAt(bins, i, steps, bins[cursor].id);
        MetAgain(bins, i, steps, k, bins[cursor].id);
        return true, steps;
      }
      PassedMore(bins, i, steps, ancestors, bins[cursor].id);
      ancestors := ancestors + {bins[cursor].id};
      steps := steps + 1;
      var next := FindBin(bins, bins[cursor].parent);
      if next == |bins| {
        return false, steps;
      }
      cursor := next;
    }
    return false, steps + 1;
  }

  ghost function Ids(bins: seq<Bin>): set<Id> {
    set i | 0 <= i < |bins| :: bins[i].id
  }

  lemma PassedMore(bins: seq<Bin>, i: nat, steps: nat, ancestors: set<Id>, id: Id)
    requires i < |bins| && Passed(bins, i, steps, ancestors) && IdAt(bins, i, steps, id)
    ensures Passed(bins, i, steps + 1, ancestors + {id})
  {
  }

  /** If every walk up ends, nothing is on a cycle. */
  lemma AllEnd(bins: seq<Bin>, ends: seq<nat>)
    requires |ends| == |bins| && forall i :: 0 <= i < |bins| ==> Climb(bins, i, ends[i]).None?
    ensures Acyclic(bins)
  {
    forall i: nat | i < |bins|
      ensures !OnCycle(bins, i)
    {
      if k: nat :| k > 0 && Climb(bins, i, k) == Some(i) {
        Around(bins, i, k, ends[i]);
      }
    }
  }

  /** What a refusal says is so. */
  ghost predicate IsProblem(bins: seq<Bin>, taken: set<Id>, p: Problem) {
    p.at < |bins| &&
    match p
    case InvalidId(i) => bins[i].id == NO_ID
    case DuplicateId(i) => bins[i].id in taken || exists k :: 0 <= k < i && bins[k].id == bins[i].id
    case EmptyName(i) => bins[i].name == ""
    case UnknownParent(i) => WellNamed(bins, taken) && bins[i].parent != NO_ID && !HasBin(bins, bins[i].parent)
    case Cycle(_) => WellNamed(bins, taken) && !Acyclic(bins)
  }

  method RegisterIds(bins: seq<Bin>, taken: set<Id>) returns (r: Option<Problem>, ids: set<Id>)
    ensures r.None? <==> WellNamed(bins, taken)
    ensures r.Some? ==> IsProblem(bins, taken, r.value)
    ensures r.None? ==> ids == Ids(bins)
  {
    ids := {};
    for i := 0 to |bins|
      invariant ids == Ids(bins[..i])
      invariant forall a, b :: 0 <= a < b < i ==> bins[a].id != bins[b].id
      invariant forall k :: 0 <= k < i ==> bins[k].id != NO_ID && bins[k].id !in taken && bins[k].name != ""
    {
      assert bins[..i + 1] == bins[..i] + [bins[i]];
      if bins[i].id == NO_ID {
        return Some(InvalidId(i)), ids;
      }
      if bins[i].id in taken || bins[i].id in ids {
        if bins[i].id in ids {
          var k :| 0 <= k < i && bins[..i][k].id == bins[i].id;
          assert bins[k].id == bins[i].id;
        }
        return Some(DuplicateId(i)), ids;
      }
      if bins[i].name == "" {
        return Some(EmptyName(i)), ids;
      }
      forall k | 0 <= k < i
        ensures bins[k].id != bins[i].id
      {
        assert bins[..i][k].id in ids;
      }
      ids := ids + {bins[i].id};
      assert ids == Ids(bins[..i + 1]) by {
        forall id
          ensures id in Ids(bins[..i + 1]) <==> id in Ids(bins[..i]) || id == bins[i].id
        {
          if id in Ids(bins[..i]) {
            var k :| 0 <= k < i && bins[..i][k].id == id;
            assert bins[..i + 1][k].id == id;
          }
          assert bins[..i + 1][i].id == bins[i].id;
          if id in Ids(bins[..i + 1]) {
            var k :| 0 <= k < i + 1 && bins[..i + 1][k].id == id;
            assert k < i ==> bins[..i][k].id == id;
          }
        }
      }
    }
    assert bins[..|bins|] == bins;
    return None, ids;
  }

  /** Accepts exactly the lists that are hierarchies. */
  method ValidateBins(bins: seq<Bin>, taken: set<Id>) returns (r: Option<Problem>)
    ensures r.None? <==> IsHierarchy(bins, taken)
    ensures r.Some? ==> IsProblem(bins, taken, r.value)
  {
    var problem, ids := RegisterIds(bins, taken);
    if problem.Some? {
      return problem;
    }
    ghost var ends: seq<nat> := [];
    for i := 0 to |bins|
      invariant |ends| == i && forall k :: 0 <= k < i ==> Climb(bins, k, ends[k]).None?
      invariant forall k :: 0 <= k < i && bins[k].parent != NO_ID ==> HasBin(bins, bins[k].parent)
    {
      if bins[i].parent != NO_ID && bins[i].parent !in ids {
        assert !HasBin(bins, bins[i].parent) by {
          assert forall k :: 0 <= k < |bins| ==> bins[k].id in Ids(bins);
        }
        return Some(UnknownParent(i));
      }
      if bins[i].parent != NO_ID {
        var k :| 0 <= k < |bins| && bins[k].id == bins[i].parent;
        assert HasBin(bins, bins[i].parent);
      }
      ghost var steps;
      var cycle;
      cycle, steps := Walk(bins, i);
      if cycle {
        return Some(Cycle(i));
      }
      ends := ends + [steps];
    }
    AllEnd(bins, ends);
    return None;
  }
}
