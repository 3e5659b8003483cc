/** The phases of the multi-file commit, under any faults and a power cut at any moment. */
module Phases {
  import opened Options
  import opened Names
  import opened Storage
  import opened Plan
  import opened Recovery

  // ---- Where one artifact stands ------------------------------------------

  /** Not yet moved out of the way. */
  ghost predicate Waiting(s: Files, x: CommitArtifact, v: Files) {
    x.backup !in s && Get(s, x.path) == Get(v, x.path)
  }

  /** The old file, if there was one, is in the backup. */
  ghost predicate Saved(s: Files, x: CommitArtifact, v: Files) {
    if x.existed then x.path in v && Get(s, x.backup) == Some(v[x.path]) else x.backup !in s && x.path !in v
  }

  ghost predicate Out(s: Files, x: CommitArtifact, v: Files) {
    x.path !in s && Saved(s, x, v)
  }

  /** What the destination should finally be, with the old file still in the backup. */
  ghost predicate In(s: Files, x: CommitArtifact, v: Files) {
    Get(s, x.path) == Wanted(x) && Saved(s, x, v)
  }

  ghost predicate TempReady(s: Files, x: CommitArtifact) {
    !x.remove ==> Get(s, x.temporary) == Some(x.contents)
  }

  ghost predicate AllTempsReady(s: Files, a: seq<CommitArtifact>, from: nat) {
    forall j :: from <= j < |a| ==> TempReady(s, a[j])
  }

  ghost predicate ExistedIs(a: seq<CommitArtifact>, v: Files) {
    forall i :: 0 <= i < |a| ==> (a[i].existed <==> a[i].path in v)
  }

  ghost predicate NoBackups(s: Files, a: seq<CommitArtifact>) {
    forall i :: 0 <= i < |a| ==> a[i].backup !in s
  }

  ghost predicate NamesWithin(a: seq<CommitArtifact>, names: iset<Path>) {
    forall i :: 0 <= i < |a| ==> a[i].path in names && a[i].temporary in names && a[i].backup in names
  }

  ghost predicate NotStarted(a: seq<CommitArtifact>) {
    forall i :: 0 <= i < |a| ==> !a[i].backedUp && !a[i].committed
  }

  /** Equal but for the flags the prepare loop sets. */
  ghost predicate SameNames(a: seq<CommitArtifact>, b: seq<CommitArtifact>) {
    && |a| == |b|
    && forall i :: 0 <= i < |a| ==> a[i] == b[i].(existed := a[i].existed)
  }

  /** No marker, and the user's files are w. */
  ghost predicate Plain(s: Files, w: Files, names: iset<Path>) {
    MARKER !in s && UserFiles(s, w) && Within(s, names)
  }

  lemma PlainIgnores(s: Files, w: Files, names: iset<Path>, p: Path, c: string)
    requires Plain(s, w, names) && !IsUser(p) && p != MARKER && p in names
    ensures Plain(s[p := c], w, names) && Plain(s - {p}, w, names)
  {
  }

  // ---- Prepare -------------------------------------------------------------

  /** One new file, beside its destination. */
  method WriteTemporary(d: Disk, a: seq<CommitArtifact>, i: nat, ghost v: Files, ghost names: iset<Path>)
    returns (ok: bool)
    requires d.Valid() && Apart(a) && NamesWithin(a, names) && i < |a| && !a[i].remove
    requires Plain(d.files, v, names) && NoBackups(d.files, a) && AcceptsPlain(d.good, v, names)
    modifies d`files, d`states, d`faults
    ensures d.Valid() && d.faults == old(d.faults) + if ok then 0 else 1
    ensures Plain(d.files, v, names) && NoBackups(d.files, a)
    ensures forall j :: 0 <= j < |a| && j != i && TempReady(old(d.files), a[j]) ==> TempReady(d.files, a[j])
    ensures ok ==> TempReady(d.files, a[i])
  {
    ghost var before := d.files;
    var x := a[i];
    forall k | 0 <= k <= |x.contents| ensures before[x.temporary := x.contents[..k]] in d.good {
      PlainIgnores(before, v, names, x.temporary, x.contents[..k]);
    }
    ok := d.WriteFile(x.temporary, x.contents);
    AfterTemporary(before, d.files, v, names, a, i);
  }

  /** Every new file is written beside its destination before anything moves. */
  method Prepare(d: Disk, a0: seq<CommitArtifact>, ghost v: Files, ghost names: iset<Path>)
    returns (ok: bool, a: seq<CommitArtifact>)
    requires d.Valid() && Apart(a0) && NamesWithin(a0, names) && NotStarted(a0)
    requires Plain(d.files, v, names) && NoBackups(d.files, a0) && AcceptsPlain(d.good, v, names)
    modifies d`files, d`states, d`faults, d`refusals
    ensures d.Valid() && d.faults >= old(d.faults) && d.refusals >= old(d.refusals)
    ensures Plain(d.files, v, names) && NoBackups(d.files, a0)
    ensures SameNames(a, a0)
    ensures ok ==> ExistedIs(a, v) && AllTempsReady(d.files, a, 0)
    ensures !ok ==> d.faults > old(d.faults)
  {
    a := a0;
    var i := 0;
    while i < |a|
      invariant 0 <= i <= |a| && SameNames(a, a0)
      invariant d.Valid() && d.faults >= old(d.faults) && d.refusals >= old(d.refusals)
      invariant Plain(d.files, v, names) && NoBackups(d.files, a0)
      invariant forall j :: 0 <= j < i ==> (a[j].existed <==> a[j].path in v) && TempReady(d.files, a[j])
    {
      var x := a0[i];
      assert IsUser(x.path) && Get(d.files, x.path) == Get(v, x.path);
      var existed := d.Exists(x.path);
      if existed.None? {
        return false, a;
      }
      if !x.remove {
        ok := WriteTemporary(d, a0, i, v, names);
        if !ok {
          return false, a;
        }
      }
      a := a[i := a[i].(existed := existed.value)];
      i := i + 1;
    }
    ok := true;
  }

  lemma AfterTemporary(s: Files, t: Files, v: Files, names: iset<Path>, a: seq<CommitArtifact>, i: nat)
    requires Apart(a) && NamesWithin(a, names) && i < |a|
    requires Plain(s, v, names) && NoBackups(s, a)
    requires t == s || exists k :: 0 <= k <= |a[i].contents| && t == s[a[i].temporary := a[i].contents[..k]]
    ensures Plain(t, v, names) && NoBackups(t, a)
    ensures forall j :: 0 <= j < |a| && j != i && TempReady(s, a[j]) ==> TempReady(t, a[j])
  {
  }

  ghost predicate Grew(before: seq<Files>, after: seq<Files>, inv: iset<Files>) {
    before <= after && forall i :: |before| <= i < |after| ==> after[i] in inv
  }

  /** Remove every temporary; `inv` is whatever the caller needs to keep. */
  method CleanupTemporary(d: Disk, a: seq<CommitArtifact>, ghost inv: iset<Files>)
    requires d.Valid() && d.files in inv && inv <= d.good
    requires forall s: Files, i :: s in inv && 0 <= i < |a| ==> s - {a[i].temporary} in inv
    modifies d`files, d`states, d`faults, d`refusals
    ensures d.Valid() && d.files in inv && d.faults >= old(d.faults) && d.refusals >= old(d.refusals)
    ensures d.faults == old(d.faults) ==> forall i :: 0 <= i < |a| ==> a[i].temporary !in d.files
    ensures Grew(old(d.states), d.states, inv)
  {
    var i := 0;
    while i < |a|
      invariant Grew(old(d.states), d.states, inv)
      invariant 0 <= i <= |a| && d.Valid() && d.files in inv && d.faults >= old(d.faults) && d.refusals >= old(d.refusals)
      invariant d.faults == old(d.faults) ==> forall j :: 0 <= j < i ==> a[j].temporary !in d.files
    {
      ghost var next := d.files - {a[i].temporary};
      d.RemoveIfPresent(a[i].temporary);
      i := i + 1;
    }
  }

  // ---- Roll back -----------------------------------------------------------

  /** Everything rollback relies on for one artifact. */
  ghost predicate Undoable(s: Files, x: CommitArtifact, v: Files) {
    && (x.existed <==> x.path in v)
    && (x.backedUp ==> Saved(s, x, v) && x.existed)
    && (x.existed && !x.backedUp ==> !x.committed && Get(s, x.path) == Get(v, x.path))
    && (!x.existed && !x.committed ==> x.path !in s)
  }

  ghost predicate Outside(s: Files, a: seq<CommitArtifact>, v: Files) {
    forall p: Path {:trigger IsUser(p)} :: IsUser(p) && !Covers(a, p) ==> Get(s, p) == Get(v, p)
  }

  ghost function Dropped(s: Files, x: CommitArtifact): Files {
    if x.committed then s - {x.path} else s
  }

  ghost function Restored(s: Files, x: CommitArtifact): Files {
    if x.backedUp && x.backup in s then s[x.path := s[x.backup]] - {x.backup} else s
  }

  ghost function Undone(s: Files, x: CommitArtifact): Files {
    Restored(Dropped(s, x), x)
  }

  /** The disk when a rollback without refusals has undone the artifacts from k on; it goes from the last one down. */
  ghost function After(s: Files, a: seq<CommitArtifact>, k: nat): Files
    requires k <= |a|
    decreases |a| - k
  {
    if k == |a| then s else Undone(After(s, a, k + 1), a[k])
  }

  /** The two moments of undoing one artifact, and no others, were added to the history. */
  ghost predicate Took(before: seq<Files>, after: seq<Files>, s: Files, x: CommitArtifact) {
    && before <= after && Dropped(s, x) in after && Undone(s, x) in after
    && forall i :: |before| <= i < |after| ==> after[i] == Dropped(s, x) || after[i] == Undone(s, x)
  }

  /** One artifact: drop the new file, bring the old one back. */
  method RollbackItem(d: Disk, x: CommitArtifact, ghost a: seq<CommitArtifact>, ghost i: nat, ghost journal: string,
                      ghost v: Files, ghost names: iset<Path>, ghost guarded: bool)
    requires d.Valid() && Apart(a) && i < |a| && x == a[i] && Undoable(d.files, x, v) && Outside(d.files, a, v)
    requires guarded ==> Guarded(d.files, a, journal, v) && AcceptsGuarded(d.good, a, journal, v, names)
    requires !guarded ==> d.good == iset s: Files | Anything(s)
    requires Within(d.files, names) && x.path in names
    modifies d`files, d`states, d`faults, d`refusals
    ensures d.Valid() && d.faults >= old(d.faults) && d.refusals >= old(d.refusals)
    ensures Outside(d.files, a, v) && Within(d.files, names)
    ensures guarded ==> Guarded(d.files, a, journal, v)
    ensures d.faults == old(d.faults) ==> Get(d.files, x.path) == Get(v, x.path)
    ensures ItemOnly(a, i, old(d.files), d.files)
    ensures d.Obeys() ==> d.faults == old(d.faults) && d.files == Undone(old(d.files), x)
    ensures d.Obeys() ==> Took(old(d.states), d.states, old(d.files), x)
  {
    ghost var s, states := d.files, d.states;
    if x.committed {
      if guarded {
        GuardDropsDestination(s, a, journal, v, i);
      }
      d.RemoveIfPresent(x.path);
    }
    ghost var s1, states1 := d.files, d.states;
    DropIsItemOnly(s, a, i, v);
    if x.backedUp {
      if guarded {
        GuardRestores(s1, a, journal, v, i);
      }
      MoveIsItemOnly(s1, a, i, v);
      var moved := d.Rename(x.backup, x.path);
    }
    if d.Obeys() {
      TookTwo(states, states1, d.states, s, x, d.files);
    }
  }

  lemma TookTwo(before: seq<Files>, mid: seq<Files>, after: seq<Files>, s: Files, x: CommitArtifact, t: Files)
    requires before != [] && before[|before| - 1] == s && mid != [] && mid[|mid| - 1] == Dropped(s, x)
    requires mid == before || mid == before + [Dropped(s, x)]
    requires after == mid || after == mid + [t]
    requires t == Undone(s, x) && after[|after| - 1] == t
    ensures Took(before, after, s, x)
  {
    assert after[|mid| - 1] == mid[|mid| - 1];
  }

  /** A step on artifact i touches no other artifact's destination or backup. */
  ghost predicate ItemOnly(a: seq<CommitArtifact>, i: nat, s: Files, t: Files) {
    forall j :: 0 <= j < |a| && j != i ==>
      Get(t, a[j].path) == Get(s, a[j].path) && Get(t, a[j].backup) == Get(s, a[j].backup)
  }

  lemma DropIsItemOnly(s: Files, a: seq<CommitArtifact>, i: nat, v: Files)
    requires Apart(a) && i < |a| && Outside(s, a, v)
    ensures ItemOnly(a, i, s, s) && ItemOnly(a, i, s, s - {a[i].path})
    ensures Outside(s - {a[i].path}, a, v)
  {
    assert Covers(a, a[i].path);
    forall j | 0 <= j < |a| && j != i ensures a[j].path != a[i].path && a[j].backup != a[i].path {
    }
  }

  lemma MoveIsItemOnly(s: Files, a: seq<CommitArtifact>, i: nat, v: Files)
    requires Apart(a) && i < |a| && a[i].backup in s && Outside(s, a, v)
    ensures a[i].backup != a[i].path
    ensures var t := s[a[i].path := s[a[i].backup]] - {a[i].backup};
            ItemOnly(a, i, s, t) && Outside(t, a, v)
  {
    assert Covers(a, a[i].path);
    forall j | 0 <= j < |a| && j != i
      ensures a[j].path != a[i].path && a[j].backup != a[i].path && a[j].path != a[i].backup && a[j].backup != a[i].backup
    {
    }
  }

  ghost predicate AllUndoable(s: Files, a: seq<CommitArtifact>, v: Files, k: nat) {
    forall j :: 0 <= j < k && j < |a| ==> Undoable(s, a[j], v)
  }

  lemma UndoableKept(s: Files, t: Files, a: seq<CommitArtifact>, v: Files, i: nat)
    requires i < |a| && AllUndoable(s, a, v, i + 1) && ItemOnly(a, i, s, t)
    ensures AllUndoable(t, a, v, i)
  {
  }

  ghost predicate BackFrom(s: Files, a: seq<CommitArtifact>, v: Files, k: nat) {
    forall j :: k <= j < |a| ==> Get(s, a[j].path) == Get(v, a[j].path)
  }

  lemma AllBack(s: Files, a: seq<CommitArtifact>, v: Files)
    requires BackFrom(s, a, v, 0) && Outside(s, a, v)
    ensures UserFiles(s, v)
  {
  }

  /**
   Undo a commit that failed. With the marker in place every state on the way
   still stands for v; and unless something more goes wrong v is back at once.
   */
  method Rollback(d: Disk, a: seq<CommitArtifact>, ghost journal: string, ghost v: Files, ghost names: iset<Path>,
                  ghost guarded: bool)
    requires d.Valid() && Apart(a) && NamesWithin(a, names) && Within(d.files, names)
    requires AllUndoable(d.files, a, v, |a|) && Outside(d.files, a, v)
    requires guarded ==> Guarded(d.files, a, journal, v) && AcceptsGuarded(d.good, a, journal, v, names)
    requires !guarded ==> d.good == iset s: Files | Anything(s)
    modifies d`files, d`states, d`faults, d`refusals
    ensures d.Valid() && d.faults >= old(d.faults) && d.refusals >= old(d.refusals) && Within(d.files, names)
    ensures guarded ==> Guarded(d.files, a, journal, v)
    ensures d.faults == old(d.faults) ==> UserFiles(d.files, v)
    ensures d.Obeys() ==> Undid(old(d.states), d.states, Moments(old(d.files), a, 0), v)
  {
    ghost var s0, states0 := d.files, d.states;
    UndoAll(d, a, journal, v, names, guarded);
    ghost var undone, states1 := d.faults == old(d.faults), d.states;
    if undone {
      AllBack(d.files, a, v);
    }
    ghost var inv := iset s: Files | AfterRollback(s, a, journal, v, names, guarded, undone);
    forall s: Files, i | s in inv && 0 <= i < |a| ensures s - {a[i].temporary} in inv {
      DropAfterRollback(s, a, journal, v, names, guarded, undone, i);
    }
    CleanupTemporary(d, a, inv);
    if d.Obeys() {
      UndidMore(states0, states1, d.states, Moments(s0, a, 0), v, inv);
    }
  }

  /** The moments of a rollback from the last artifact down to k. */
  ghost function Moments(s: Files, a: seq<CommitArtifact>, k: nat): iset<Files>
    requires k <= |a|
    decreases |a| - k
  {
    if k == |a| then iset{s}
    else Moments(s, a, k + 1) + iset{Dropped(After(s, a, k + 1), a[k]), After(s, a, k)}
  }

  lemma OneMoreMoment(s: Files, a: seq<CommitArtifact>, done: nat, k: nat)
    requires k < |a| && done == k + 1
    ensures After(s, a, k) == Undone(After(s, a, done), a[k])
    ensures Moments(s, a, k) ==
            Moments(s, a, done) + iset{Dropped(After(s, a, done), a[k]), Undone(After(s, a, done), a[k])}
  {
  }

  /** The history goes through exactly these moments. */
  ghost predicate Passed(before: seq<Files>, after: seq<Files>, moments: iset<Files>) {
    && Grew(before, after, moments)
    && forall t :: t in moments ==> t in after
  }

  /** The history of a whole rollback: every moment on the way, and then the old files. */
  ghost predicate Undid(before: seq<Files>, after: seq<Files>, moments: iset<Files>, v: Files) {
    && Grew(before, after, moments + iset t: Files | UserFiles(t, v))
    && forall t :: t in moments ==> t in after
  }

  lemma UndidMore(before: seq<Files>, mid: seq<Files>, after: seq<Files>, moments: iset<Files>, v: Files, inv: iset<Files>)
    requires Passed(before, mid, moments) && Grew(mid, after, inv)
    requires forall t :: t in inv ==> UserFiles(t, v)
    ensures Undid(before, after, moments, v)
  {
  }

  lemma PassedOne(before: seq<Files>, mid: seq<Files>, after: seq<Files>, moments: iset<Files>, s: Files,
                  x: CommitArtifact)
    requires Passed(before, mid, moments) && Took(mid, after, s, x)
    ensures Passed(before, after, moments + iset{Dropped(s, x), Undone(s, x)})
  {
    forall i | |before| <= i < |after| ensures after[i] in moments + iset{Dropped(s, x), Undone(s, x)} {
      if i < |mid| {
        assert after[i] == mid[i];
      }
    }
  }

  /** The backward loop over the artifacts. */
  method UndoAll(d: Disk, a: seq<CommitArtifact>, ghost journal: string, ghost v: Files, ghost names: iset<Path>,
                 ghost guarded: bool)
    requires d.Valid() && Apart(a) && NamesWithin(a, names) && Within(d.files, names)
    requires AllUndoable(d.files, a, v, |a|) && Outside(d.files, a, v)
    requires guarded ==> Guarded(d.files, a, journal, v) && AcceptsGuarded(d.good, a, journal, v, names)
    requires !guarded ==> d.good == iset s: Files | Anything(s)
    modifies d`files, d`states, d`faults, d`refusals
    ensures d.Valid() && d.faults >= old(d.faults) && d.refusals >= old(d.refusals) && Within(d.files, names)
    ensures Outside(d.files, a, v) && (guarded ==> Guarded(d.files, a, journal, v))
    ensures d.faults == old(d.faults) ==> BackFrom(d.files, a, v, 0)
    ensures d.Obeys() ==> d.faults == old(d.faults) && Passed(old(d.states), d.states, Moments(old(d.files), a, 0))
  {
    ghost var s0, states0 := d.files, d.states;
    var k := |a|;
    while k > 0
      invariant 0 <= k <= |a|
      invariant d.Valid() && d.faults >= old(d.faults) && d.refusals >= old(d.refusals) && Within(d.files, names)
      invariant AllUndoable(d.files, a, v, k) && Outside(d.files, a, v)
      invariant guarded ==> Guarded(d.files, a, journal, v)
      invariant d.faults == old(d.faults) ==> BackFrom(d.files, a, v, k)
      invariant d.Obeys() ==> d.faults == old(d.faults) && d.files == After(s0, a, k)
      invariant d.Obeys() ==> Passed(states0, d.states, Moments(s0, a, k))
    {
      ghost var done, s, states := k, d.files, d.states;
      k := k - 1;
      RollbackItem(d, a[k], a, k, journal, v, names, guarded);
      UndoableKept(s, d.files, a, v, k);
      if d.Obeys() {
        PassedOne(states0, states, d.states, Moments(s0, a, done), s, a[k]);
        OneMoreMoment(s0, a, done, k);
      }
    }
  }

  ghost predicate AfterRollback(s: Files, a: seq<CommitArtifact>, journal: string, v: Files, names: iset<Path>,
                                guarded: bool, undone: bool)
  {
    Within(s, names) && (guarded ==> Guarded(s, a, journal, v)) && (undone ==> UserFiles(s, v))
  }

  lemma DropAfterRollback(s: Files, a: seq<CommitArtifact>, journal: string, v: Files, names: iset<Path>,
                          guarded: bool, undone: bool, i: nat)
    requires Apart(a) && i < |a| && AfterRollback(s, a, journal, v, names, guarded, undone)
    ensures AfterRollback(s - {a[i].temporary}, a, journal, v, names, guarded, undone)
  {
    var p := a[i].temporary;
    if guarded {
      forall j | 0 <= j < |a| ensures p != a[j].backup && p != a[j].path {
      }
      GuardIgnores(s, a, journal, v, p);
    }
    if undone {
      forall q: Path {:trigger IsUser(q)} | IsUser(q) ensures Get(s - {p}, q) == Get(v, q) {
      }
    }
  }

  // ---- Move the old files out of the way ---------------------------------------

  /** Flags may differ, names and contents may not. */
  lemma SamePlanGuarded(s: Files, a: seq<CommitArtifact>, b: seq<CommitArtifact>, journal: string, v: Files)
    requires SamePlan(a, b)
    ensures Guarded(s, a, journal, v) <==> Guarded(s, b, journal, v)
  {
  }

  /** The backup loop at i: everything below is out, everything above still waits. */
  ghost predicate BackingUp(s: Files, a: seq<CommitArtifact>, v: Files, i: nat) {
    forall j :: 0 <= j < |a| ==> if j < i then Out(s, a[j], v) else Waiting(s, a[j], v)
  }

  ghost predicate FlaggedBackedUp(a: seq<CommitArtifact>, i: nat) {
    forall j :: 0 <= j < |a| ==> a[j].backedUp == (j < i && a[j].existed) && !a[j].committed
  }

  lemma BackUpOne(s: Files, a: seq<CommitArtifact>, journal: string, v: Files, i: nat)
    requires Apart(a) && Guarded(s, a, journal, v) && BackingUp(s, a, v, i) && i < |a| && a[i].existed
    requires AllTempsReady(s, a, 0)
    ensures a[i].path != a[i].backup && a[i].path in s
    ensures var t := s[a[i].backup := s[a[i].path]] - {a[i].path};
            Guarded(t, a, journal, v) && BackingUp(t, a, v, i + 1) && AllTempsReady(t, a, 0)
  {
    var q, b := a[i].path, a[i].backup;
    assert OldKept(s, a[i], v) && Waiting(s, a[i], v);
    var t := s[b := s[q]] - {q};
    forall j | 0 <= j < |a|
      ensures OldKept(t, a[j], v) && TempReady(t, a[j])
      ensures if j < i + 1 then Out(t, a[j], v) else Waiting(t, a[j], v)
    {
      assert OldKept(s, a[j], v) && TempReady(s, a[j]);
      assert a[j].temporary != b && a[j].temporary != q && a[j].path != b && a[j].backup != q;
      assert j != i ==> a[j].path != q && a[j].backup != b;
      assert if j < i then Out(s, a[j], v) else Waiting(s, a[j], v);
    }
    assert Covers(a, q);
  }

  lemma NothingToBackUp(s: Files, a: seq<CommitArtifact>, journal: string, v: Files, i: nat)
    requires Guarded(s, a, journal, v) && BackingUp(s, a, v, i) && i < |a| && !a[i].existed
    ensures BackingUp(s, a, v, i + 1)
  {
  }
}
