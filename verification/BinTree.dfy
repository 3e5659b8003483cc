/**
 The bin browser: one level's folders in name order, and the whole tree
 flattened folder by folder with depths. Identities already shown are
 skipped, so even a list that is not a hierarchy is flattened without
 repeats.
 */
module BinTree {
  import opened Bins
  import opened StableSort

  datatype Entry = Entry(bin: Bin, depth: nat)

  // ---- One level ---------------------------------------------------------------------

  predicate Before(a: string, b: string) {
    if b == "" then false
    else if a == "" then true
    else a[0] < b[0] || (a[0] == b[0] && Before(a[1..], b[1..]))
  }

  lemma {:induction false} BeforeTotal(a: string, b: string)
    ensures Before(a, b) || Before(b, a) || a == b
    ensures !(Before(a, b) && Before(b, a))
    decreases |a|
  {
    if a != "" && b != "" {
      BeforeTotal(a[1..], b[1..]);
      if a[0] == b[0] && a[1..] == b[1..] {
        assert a == [a[0]] + a[1..] && b == [b[0]] + b[1..];
      }
    }
  }

  /** The first place where two names differ, and there the first is less. */
  ghost predicate LessAt(a: string, b: string, n: nat) {
    n < |a| && n < |b| && a[..n] == b[..n] && a[n] < b[n]
  }

  /** Names are ordered as in a dictionary: a proper prefix first, else by the first character that differs. */
  lemma {:induction false} BeforeIs(a: string, b: string)
    ensures Before(a, b) <==> a < b || exists n: nat :: LessAt(a, b, n)
    decreases |a|
  {
    if a != "" && b != "" {
      BeforeIs(a[1..], b[1..]);
      assert a == [a[0]] + a[1..] && b == [b[0]] + b[1..];
      if a[0] < b[0] {
        assert LessAt(a, b, 0);
      }
      if n: nat :| LessAt(a, b, n) {
        if n > 0 {
          assert a[0] == a[..n][0] == b[..n][0] == b[0];
          assert a[1..][..n - 1] == a[..n][1..] && b[1..][..n - 1] == b[..n][1..];
          assert LessAt(a[1..], b[1..], n - 1);
        }
      }
      if a[0] == b[0] {
        if n: nat :| LessAt(a[1..], b[1..], n) {
          assert a[..n + 1] == [a[0]] + a[1..][..n] && b[..n + 1] == [b[0]] + b[1..][..n];
          assert LessAt(a, b, n + 1);
        }
      }
    }
  }

  lemma {:induction false} NotBeforeTransitive(a: string, b: string, c: string)
    requires !Before(b, a) && !Before(c, b)
    ensures !Before(c, a)
    decreases |a|
  {
    if a != "" && b != "" && c != "" {
      if a[0] == b[0] == c[0] {
        NotBeforeTransitive(a[1..], b[1..], c[1..]);
      }
    }
  }

  /** The bins directly under a parent, in list order. */
  function Under(bins: seq<Bin>, parent: Id): seq<Bin> {
    if bins == [] then []
    else
      var last := |bins| - 1;
      Under(bins[..last], parent) + if bins[last].parent == parent then [bins[last]] else []
  }

  function NameOrder(): Order<Bin> {
    Order((a: Bin, b: Bin) => Before(a.name, b.name))
  }

  /** Sorted by name, stably. */
  function ByName(s: seq<Bin>): seq<Bin> {
    Sorted(NameOrder(), s)
  }

  function LowerChar(c: char): char {
    if 'A' <= c <= 'Z' then (c as int - 'A' as int + 'a' as int) as char else c
  }

  function Lower(s: string): (r: string)
    ensures |r| == |s| && forall i :: 0 <= i < |s| ==> r[i] == LowerChar(s[i])
  {
    if s == "" then "" else [LowerChar(s[0])] + Lower(s[1..])
  }

  /** The text occurs in the name, upper and lower case being the same. */
  predicate Contains(name: string, search: string) {
    var h, n := Lower(name), Lower(search);
    exists i {:trigger h[i..]} :: 0 <= i <= |h| && n <= h[i..]
  }

  /** The same character, or the same letter in the other case. */
  ghost predicate SameLetter(a: char, b: char) {
    a == b || IsCaseOf(a, b) || IsCaseOf(b, a)
  }

  ghost predicate IsCaseOf(upper: char, lower: char) {
    'A' <= upper <= 'Z' && 'a' <= lower <= 'z' && upper as int - 'A' as int == lower as int - 'a' as int
  }

  ghost predicate OccursAt(name: string, search: string, i: nat) {
    i + |search| <= |name| && forall k :: 0 <= k < |search| ==> SameLetter(name[i + k], search[k])
  }

  lemma SameLower(a: char, b: char)
    ensures LowerChar(a) == LowerChar(b) <==> SameLetter(a, b)
  {
  }

  /** The text is found wherever it occurs, letter by letter in either case. */
  lemma ContainsIff(name: string, search: string)
    ensures Contains(name, search) <==> exists i: nat :: OccursAt(name, search, i)
  {
    var h, n := Lower(name), Lower(search);
    forall i: nat | i <= |h|
      ensures n <= h[i..] <==> OccursAt(name, search, i)
    {
      if i + |search| <= |name| {
        forall k | 0 <= k < |search|
          ensures h[i..][k] == n[k] <==> SameLetter(name[i + k], search[k])
        {
          SameLower(name[i + k], search[k]);
        }
      }
    }
    if i: nat :| OccursAt(name, search, i) {
      assert n <= h[i..];
    }
  }

  /** The bins directly under a parent whose name contains the text, in list order. */
  function Found(bins: seq<Bin>, parent: Id, search: string): seq<Bin> {
    if bins == [] then []
    else
      var last := |bins| - 1;
      Found(bins[..last], parent, search) +
      if bins[last].parent == parent && Contains(bins[last].name, search) then [bins[last]] else []
  }

  /** An empty text is in every name. */
  lemma {:induction false} FoundIsUnder(bins: seq<Bin>, parent: Id)
    ensures Found(bins, parent, "") == Under(bins, parent)
  {
    if bins != [] {
      var last := |bins| - 1;
      FoundIsUnder(bins[..last], parent);
      assert Lower("") <= Lower(bins[last].name)[0..];
    }
  }

  lemma {:induction false} FoundSome(bins: seq<Bin>, parent: Id, search: string, b: Bin)
    ensures b in Found(bins, parent, search) <==> b in bins && b.parent == parent && Contains(b.name, search)
  {
    if bins != [] {
      var last := |bins| - 1;
      FoundSome(bins[..last], parent, search, b);
      assert b in bins <==> b in bins[..last] || b == bins[last];
    }
  }

  method DirectChildBins(bins: seq<Bin>, parent: Id, search: string) returns (result: seq<Bin>)
    ensures result == ByName(Found(bins, parent, search))
    ensures search == "" ==> result == ByName(Under(bins, parent))
  {
    FoundIsUnder(bins, parent);
    var level: seq<Bin> := [];
    for i := 0 to |bins|
      invariant level == Found(bins[..i], parent, search)
    {
      assert bins[..i + 1][..i] == bins[..i];
      if bins[i].parent != parent {
        continue;
      }
      if search == "" {
        assert Lower("") <= Lower(bins[i].name)[0..];
      } else if !Contains(bins[i].name, search) {
        continue;
      }
      level := level + [bins[i]];
    }
    assert bins[..|bins|] == bins;
    return ByName(level);
  }

  /** What is shown at one level: exactly the bins there whose name contains the text, in name order. */
  lemma FoundIs(bins: seq<Bin>, parent: Id, search: string)
    ensures InNameOrder(ByName(Found(bins, parent, search)))
    ensures forall b :: b in ByName(Found(bins, parent, search)) <==>
                        b in bins && b.parent == parent && Contains(b.name, search)
  {
    var level := Found(bins, parent, search);
    ByNameSorts(level);
    forall b ensures b in ByName(level) <==> b in bins && b.parent == parent && Contains(b.name, search) {
      FoundSome(bins, parent, search, b);
      assert b in multiset(ByName(level)) <==> b in multiset(level);
    }
  }

  ghost predicate InNameOrder(s: seq<Bin>) {
    forall i, j :: 0 <= i < j < |s| ==> !Before(s[j].name, s[i].name)
  }

  lemma NamesAreOrdered()
    ensures NameOrder().IsWeak()
  {
    var o := NameOrder();
    forall a, b | o.Before(a, b)
      ensures !o.Before(b, a)
    {
      BeforeTotal(a.name, b.name);
    }
    forall a, b, c | !o.Before(b, a) && !o.Before(c, b)
      ensures !o.Before(c, a)
    {
      NotBeforeTransitive(a.name, b.name, c.name);
    }
  }

  /** Sorting by name keeps the bins and puts them in name order. */
  lemma ByNameSorts(s: seq<Bin>)
    ensures InNameOrder(ByName(s)) && multiset(ByName(s)) == multiset(s)
  {
    var o, r := NameOrder(), ByName(s);
    NamesAreOrdered();
    SortedInOrder(o, s);
    forall i, j | 0 <= i < j < |r|
      ensures !Before(r[j].name, r[i].name)
    {
      assert !o.Before(r[j], r[i]);
    }
  }

  ghost function OfName(s: seq<Bin>, name: string): seq<Bin> {
    if s == [] then []
    else OfName(s[..|s| - 1], name) + if s[|s| - 1].name == name then [s[|s| - 1]] else []
  }

  lemma {:induction false} LikeIsOfName(s: seq<Bin>, x: Bin)
    ensures Like(NameOrder(), s, x) == OfName(s, x.name)
  {
    if s != [] {
      LikeIsOfName(s[..|s| - 1], x);
      BeforeTotal(s[|s| - 1].name, x.name);
    }
  }

  /** Bins of one name stay in list order. */
  lemma SameNamesStay(s: seq<Bin>, x: Bin)
    ensures OfName(ByName(s), x.name) == OfName(s, x.name)
  {
    NamesAreOrdered();
    SortedIsStable(NameOrder(), s, x);
    LikeIsOfName(s, x);
    LikeIsOfName(ByName(s), x);
  }

  /** The bins at some places of the list, in order. */
  ghost predicate AreAt(found: seq<Bin>, bins: seq<Bin>, at: seq<nat>) {
    && |at| == |found|
    && (forall i, j :: 0 <= i < j < |at| ==> at[i] < at[j])
    && (forall i :: 0 <= i < |at| ==> at[i] < |bins| && found[i] == bins[at[i]])
  }

  ghost predicate Matches(b: Bin, parent: Id, search: string) {
    b.parent == parent && Contains(b.name, search)
  }

  lemma OneMoreFound(bins: seq<Bin>, last: Bin, found: seq<Bin>, at: seq<nat>, matches: bool)
    requires AreAt(found, bins, at)
    ensures AreAt(found + if matches then [last] else [], bins + [last], at + if matches then [|bins|] else [])
    ensures forall k: nat :: k in at + (if matches then [|bins|] else []) <==> k in at || (matches && k == |bins|)
  {
    var more := at + if matches then [|bins|] else [];
    assert matches ==> more[|at|] == |bins|;
  }

  /** What is found is at exactly the places that match, in list order. */
  lemma {:induction false} FoundAt(bins: seq<Bin>, parent: Id, search: string) returns (at: seq<nat>)
    ensures AreAt(Found(bins, parent, search), bins, at)
    ensures forall k: nat :: k in at <==> k < |bins| && Matches(bins[k], parent, search)
  {
    at := [];
    if bins != [] {
      var front, last := bins[..|bins| - 1], bins[|bins| - 1];
      at := FoundAt(front, parent, search);
      OneMoreFound(front, last, Found(front, parent, search), at, Matches(last, parent, search));
      assert bins == front + [last];
      at := at + if Matches(last, parent, search) then [|front|] else [];
    }
  }

  lemma {:induction false} UnderSome(bins: seq<Bin>, parent: Id)
    ensures forall b :: b in Under(bins, parent) <==> b in bins && b.parent == parent
  {
    if bins != [] {
      UnderSome(bins[..|bins| - 1], parent);
      assert bins == bins[..|bins| - 1] + [bins[|bins| - 1]];
    }
  }

  /** A level is exactly the bins with that parent, in name order. */
  lemma LevelIs(bins: seq<Bin>, parent: Id)
    ensures InNameOrder(ByName(Under(bins, parent)))
    ensures forall b :: b in ByName(Under(bins, parent)) <==> b in bins && b.parent == parent
  {
    UnderSome(bins, parent);
    ByNameSorts(Under(bins, parent));
    forall b
      ensures b in ByName(Under(bins, parent)) <==> b in Under(bins, parent)
    {
      assert b in multiset(ByName(Under(bins, parent))) <==> b in multiset(Under(bins, parent));
    }
  }

  // ---- The whole tree ------------------------------------------------------------------

  ghost predicate AllIn(children: seq<Bin>, bins: seq<Bin>) {
    forall i :: 0 <= i < |children| ==> children[i] in bins
  }

  lemma LevelIn(bins: seq<Bin>, parent: Id)
    ensures AllIn(ByName(Under(bins, parent)), bins)
  {
    LevelIs(bins, parent);
    var level := ByName(Under(bins, parent));
    forall i | 0 <= i < |level|
      ensures level[i] in bins
    {
      assert level[i] in level;
    }
  }

  ghost function IdSet(bins: seq<Bin>): set<Id> {
    set b | b in bins :: b.id
  }

  /** Each child not yet shown, followed by what is under it; and the identities shown by then. */
  ghost function Shown(bins: seq<Bin>, children: seq<Bin>, depth: nat, visited: set<Id>): (r: (seq<Entry>, set<Id>))
    requires AllIn(children, bins)
    ensures visited <= r.1
    decreases IdSet(bins) - visited, |children|
  {
    if children == [] then ([], visited)
    else
      var c := children[0];
      if c.id in visited then Shown(bins, children[1..], depth, visited)
      else
        LevelIn(bins, c.id);
        assert c in bins && c.id in IdSet(bins) - visited;
        var below := Shown(bins, ByName(Under(bins, c.id)), depth + 1, visited + {c.id});
        assert IdSet(bins) - below.1 < IdSet(bins) - visited;
        var rest := Shown(bins, children[1..], depth, below.1);
        ([Entry(c, depth)] + (below.0 + rest.0), rest.1)
  }

  ghost function Tree(bins: seq<Bin>): seq<Entry> {
    LevelIn(bins, NO_ID);
    Shown(bins, ByName(Under(bins, NO_ID)), 0, {}).0
  }

  method Append(bins: seq<Bin>, parent: Id, depth: nat, visited0: set<Id>, result0: seq<Entry>)
    returns (visited: set<Id>, result: seq<Entry>)
    ensures AllIn(ByName(Under(bins, parent)), bins)
    ensures var r := Shown(bins, ByName(Under(bins, parent)), depth, visited0); visited == r.1 && result == result0 + r.0
    decreases IdSet(bins) - visited0
  {
    LevelIn(bins, parent);
    var children := DirectChildBins(bins, parent, "");
    visited, result := visited0, result0;
    ghost var whole := Shown(bins, children, depth, visited0);
    var i := 0;
    assert children[0..] == children;
    assert result0 + whole.0 == result0 + whole.0;
    while i < |children|
      invariant 0 <= i <= |children| && AllIn(children[i..], bins) && visited0 <= visited
      invariant Shown(bins, children[i..], depth, visited).1 == whole.1
      invariant result + Shown(bins, children[i..], depth, visited).0 == result0 + whole.0
    {
      var bin := children[i];
      assert children[i..][0] == bin && children[i..][1..] == children[i + 1..];
      i := i + 1;
      if bin.id in visited {
        continue;
      }
      assert bin in bins && bin.id in IdSet(bins) - visited;
      LevelIn(bins, bin.id);
      ghost var below := Shown(bins, ByName(Under(bins, bin.id)), depth + 1, visited + {bin.id});
      ghost var rest := Shown(bins, children[i..], depth, below.1);
      StepJoins(result, Entry(bin, depth), below.0, rest.0);
      visited := visited + {bin.id};
      result := result + [Entry(bin, depth)];
      visited, result := Append(bins, bin.id, depth + 1, visited, result);
    }
    assert children[i..] == [];
  }

  lemma StepJoins(result: seq<Entry>, e: Entry, below: seq<Entry>, rest: seq<Entry>)
    ensures result + ([e] + (below + rest)) == result + [e] + below + rest
  {
  }

  method BinNavigationTree(bins: seq<Bin>) returns (result: seq<Entry>)
    ensures result == Tree(bins)
  {
    var visited: set<Id> := {};
    result := [];
    visited, result := Append(bins, NO_ID, 0, visited, result);
  }
}
