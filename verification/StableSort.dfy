/** Stable sorting by an order in which elements may be equivalent, as the standard library's. */
module StableSort {
  import opened Sequences

  datatype Order<!T(!new)> = Order(before: (T, T) -> bool)
  {
    predicate Before(a: T, b: T) {
      before(a, b)
    }

    /** Neither before itself nor before anything before it, and "not before" is transitive. */
    ghost predicate IsWeak() {
      && (forall a, b :: Before(a, b) ==> !Before(b, a))
      && (forall a, b, c :: !Before(b, a) && !Before(c, b) ==> !Before(c, a))
    }

    predicate Alike(a: T, b: T) {
      !Before(a, b) && !Before(b, a)
    }
  }

  /** Inserted after every element that it does not come before. */
  function Inserted<T(!new)>(o: Order<T>, s: seq<T>, x: T): seq<T> {
    if s == [] || !o.Before(x, s[|s| - 1]) then s + [x]
    else Inserted(o, s[..|s| - 1], x) + [s[|s| - 1]]
  }

  function Sorted<T(!new)>(o: Order<T>, s: seq<T>): seq<T> {
    if s == [] then [] else Inserted(o, Sorted(o, s[..|s| - 1]), s[|s| - 1])
  }

  ghost predicate InOrder<T(!new)>(o: Order<T>, s: seq<T>) {
    forall i, j :: 0 <= i < j < |s| ==> !o.Before(s[j], s[i])
  }

  /** The elements equivalent to one, in their order. */
  ghost function Like<T(!new)>(o: Order<T>, s: seq<T>, x: T): seq<T> {
    if s == [] then []
    else Like(o, s[..|s| - 1], x) + if o.Alike(s[|s| - 1], x) then [s[|s| - 1]] else []
  }

  // ---- Where an element goes ------------------------------------------------------------

  lemma LaterPlace<T>(front: seq<T>, last: T, x: T, p: nat)
    requires p <= |front|
    ensures front[..p] + ([x] + front[p..]) + [last] == (front + [last])[..p] + ([x] + (front + [last])[p..])
  {
  }

  /** Everything after its place comes after it; what is just before its place does not. */
  ghost predicate IsPlace<T(!new)>(o: Order<T>, s: seq<T>, x: T, p: nat) {
    && p <= |s|
    && (p > 0 ==> !o.Before(x, s[p - 1]))
    && (forall k :: p <= k < |s| ==> o.Before(x, s[k]))
  }

  lemma {:induction false} InsertedAt<T(!new)>(o: Order<T>, s: seq<T>, x: T) returns (p: nat)
    ensures IsPlace(o, s, x, p) && Inserted(o, s, x) == s[..p] + ([x] + s[p..])
  {
    if s == [] || !o.Before(x, s[|s| - 1]) {
      p := |s|;
      assert s[..p] == s && s[p..] == [] && [x] + [] == [x];
    } else {
      var front, last := s[..|s| - 1], s[|s| - 1];
      assert s == front + [last];
      p := InsertedAt(o, front, x);
      LaterPlace(front, last, x, p);
    }
  }

  lemma BetweenInOrder<T(!new)>(o: Order<T>, s: seq<T>, x: T, p: nat)
    requires o.IsWeak() && InOrder(o, s) && IsPlace(o, s, x, p)
    ensures InOrder(o, s[..p] + ([x] + s[p..]))
  {
    var r := s[..p] + ([x] + s[p..]);
    assert forall i :: 0 <= i < p ==> r[i] == s[i];
    assert forall i :: p < i < |r| ==> r[i] == s[i - 1];
    assert r[p] == x;
    forall i, j | 0 <= i < j < |r|
      ensures !o.Before(r[j], r[i])
    {
      if i < p && j == p {
        if i < p - 1 {
          assert !o.Before(s[p - 1], s[i]);
        }
      } else if i == p {
        assert o.Before(x, s[j - 1]);
      }
    }
  }

  lemma SamePieces<T>(s: seq<T>, x: T, p: nat)
    requires p <= |s|
    ensures multiset(s[..p] + ([x] + s[p..])) == multiset(s) + multiset{x}
  {
    assert s == s[..p] + s[p..];
  }

  lemma {:induction false} LikeJoin<T(!new)>(o: Order<T>, a: seq<T>, b: seq<T>, x: T)
    ensures Like(o, a + b, x) == Like(o, a, x) + Like(o, b, x)
  {
    if b == [] {
      assert a + b == a;
    } else {
      var last := if o.Alike(b[|b| - 1], x) then [b[|b| - 1]] else [];
      assert (a + b)[..|a + b| - 1] == a + b[..|b| - 1];
      LikeJoin(o, a, b[..|b| - 1], x);
      Associate(Like(o, a, x), Like(o, b[..|b| - 1], x), last);
    }
  }

  lemma BackUnlike<T(!new)>(o: Order<T>, back: seq<T>, y: T, x: T)
    requires o.IsWeak() && o.Alike(y, x) && forall i :: 0 <= i < |back| ==> o.Before(y, back[i])
    ensures Like(o, back, x) == []
  {
  }

  lemma LikeBetween<T(!new)>(o: Order<T>, front: seq<T>, y: T, back: seq<T>, x: T)
    requires o.Alike(y, x) ==> Like(o, back, x) == []
    ensures Like(o, front + ([y] + back), x) == Like(o, front + back, x) + if o.Alike(y, x) then [y] else []
  {
    LikeJoin(o, front, back, x);
    LikeJoin(o, front, [y] + back, x);
    LikeJoin(o, [y], back, x);
    LikeOne(o, y, x);
    var before, after := Like(o, front, x), Like(o, back, x);
    if o.Alike(y, x) {
      assert [y] + after == [y] && before + after == before;
    } else {
      assert [] + after == after && before + after + [] == before + after;
    }
  }

  /** An inserted element comes after those equivalent to it. */
  lemma LikeInserted<T(!new)>(o: Order<T>, s: seq<T>, y: T, p: nat, x: T)
    requires o.IsWeak() && IsPlace(o, s, y, p)
    ensures Like(o, s[..p] + ([y] + s[p..]), x) == Like(o, s, x) + if o.Alike(y, x) then [y] else []
  {
    var front, back := s[..p], s[p..];
    assert s == front + back;
    if o.Alike(y, x) {
      assert forall i :: 0 <= i < |back| ==> back[i] == s[p + i];
      BackUnlike(o, back, y, x);
    }
    LikeBetween(o, front, y, back, x);
  }

  lemma LikeOne<T(!new)>(o: Order<T>, y: T, x: T)
    ensures Like(o, [y], x) == if o.Alike(y, x) then [y] else []
  {
  }

  // ---- The theorem -------------------------------------------------------------------------

  lemma InsertedSorts<T(!new)>(o: Order<T>, s: seq<T>, y: T)
    requires o.IsWeak() && InOrder(o, s)
    ensures InOrder(o, Inserted(o, s, y)) && multiset(Inserted(o, s, y)) == multiset(s) + multiset{y}
  {
    var p := InsertedAt(o, s, y);
    BetweenInOrder(o, s, y, p);
    SamePieces(s, y, p);
  }

  /** The same elements, in order. */
  lemma {:induction false} SortedInOrder<T(!new)>(o: Order<T>, s: seq<T>)
    requires o.IsWeak()
    ensures InOrder(o, Sorted(o, s)) && multiset(Sorted(o, s)) == multiset(s)
  {
    if s != [] {
      var front, last := s[..|s| - 1], s[|s| - 1];
      SortedInOrder(o, front);
      InsertedSorts(o, Sorted(o, front), last);
      assert s == front + [last];
      assert multiset(s) == multiset(front) + multiset{last};
    }
  }

  /** Equivalent elements stay as they were. */
  lemma {:induction false} SortedIsStable<T(!new)>(o: Order<T>, s: seq<T>, x: T)
    requires o.IsWeak()
    ensures Like(o, Sorted(o, s), x) == Like(o, s, x)
  {
    if s != [] {
      var front, last := s[..|s| - 1], s[|s| - 1];
      SortedIsStable(o, front, x);
      var p := InsertedAt(o, Sorted(o, front), last);
      LikeInserted(o, Sorted(o, front), last, p, x);
    }
  }
}
